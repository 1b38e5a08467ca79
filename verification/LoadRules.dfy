/**
 What Unserialize makes of any file, told by the file alone: which entry holds which slot, which are lost,
 and which are deleted at the end (src/addrman.h).
 */
module LoadRules {
  import opened AddrModel
  import opened AddrDisk
  import opened AddrRules

  // ----- The addresses of the new table -----

  /** The slot of the new table that address n was heard of for. */
  function NewAt(d: Disk, h: Hashes, n: nat): Slot
    requires n < |d.news|
  {
    NewPlace(h, d.news[n].address.service, d.news[n].source)
  }

  /** No earlier address has that slot. */
  ghost predicate FirstNew(d: Disk, h: Hashes, n: nat)
    requires n < |d.news|
  {
    forall m {:trigger NewAt(d, h, m)} :: 0 <= m < n ==> NewAt(d, h, m) != NewAt(d, h, n)
  }

  /** The file's buckets are of the size used here. */
  predicate Fits(d: Disk) {
    d.version == 1 && |d.buckets| == 1024
  }

  /** Address n of the new table, before the indices are read. */
  ghost predicate NewEntry(d: Disk, h: Hashes, b: Book, n: nat)
    requires n < |d.news|
  {
    && n in b.info
    && b.info[n] == Info(d.news[n].address, d.news[n].source, d.news[n].lastSuccess, 0, d.news[n].attempts,
                         if !Fits(d) && FirstNew(d, h, n) then 1 else 0, false, n)
    && (!Fits(d) && FirstNew(d, h, n) ==> NewAt(d, h, n) in b.newSlots && b.newSlots[NewAt(d, h, n)] == n)
  }

  /** Every slot taken belongs to the first address that has it. */
  ghost predicate TakenByFirst(d: Disk, h: Hashes, b: Book, k: nat, s: Slot)
    requires k <= |d.news| && s in b.newSlots
  {
    !Fits(d) && 0 <= b.newSlots[s] < k && NewAt(d, h, b.newSlots[s]) == s && FirstNew(d, h, b.newSlots[s])
  }

  /** The first k addresses of the new table. */
  ghost predicate NewsRead(d: Disk, h: Hashes, b: Book, k: nat)
    requires k <= |d.news|
  {
    && (forall i: int :: i in b.info <==> 0 <= i < k) && |b.random| == k && b.triedSlots == map[]
    && b.nNew == |d.news| && b.nTried == |d.trieds|
    && (forall n: nat {:trigger NewEntry(d, h, b, n)} :: n < k ==> NewEntry(d, h, b, n))
    && (forall s {:trigger TakenByFirst(d, h, b, k, s)} :: s in b.newSlots ==> TakenByFirst(d, h, b, k, s))
  }

  lemma SlotFree(d: Disk, h: Hashes, b: Book, k: nat)
    requires k < |d.news| && NewsRead(d, h, b, k) && !Fits(d)
    ensures NewAt(d, h, k) in b.newSlots <==> !FirstNew(d, h, k)
  {
    var s := NewAt(d, h, k);
    if s in b.newSlots { assert TakenByFirst(d, h, b, k, s); }
    if !FirstNew(d, h, k) {
      var m := FirstHolder(d, h, k);
      assert NewEntry(d, h, b, m);
    }
  }

  /** The first address with the slot of address k. */
  lemma {:induction false} FirstHolder(d: Disk, h: Hashes, k: nat) returns (m: nat)
    requires k < |d.news| && !FirstNew(d, h, k)
    ensures m < k && NewAt(d, h, m) == NewAt(d, h, k) && FirstNew(d, h, m)
    decreases k
  {
    m :| 0 <= m < k && NewAt(d, h, m) == NewAt(d, h, k);
    if !FirstNew(d, h, m) { m := FirstHolder(d, h, m); }
  }

  lemma LoadNewIs(b: Book, h: Hashes, s: Saved, n: nat, usable: bool)
    ensures var place := NewPlace(h, s.address.service, s.source);
      var gets := !usable && place !in b.newSlots;
      var b' := LoadNew(b, h, s, n, usable);
      && b'.info == b.info[n := Info(s.address, s.source, s.lastSuccess, 0, s.attempts, if gets then 1 else 0, false,
                                     |b.random|)]
      && b'.newSlots == (if gets then b.newSlots[place := n] else b.newSlots) && b'.triedSlots == b.triedSlots
      && |b'.random| == |b.random| + 1 && b'.nNew == b.nNew && b'.nTried == b.nTried
  {
  }

  lemma FitsIsUsable(d: Disk)
    ensures Usable(d) == Fits(d)
  {
  }

  lemma NewsStep(d: Disk, h: Hashes, b: Book, k: nat)
    requires k < |d.news| && NewsRead(d, h, b, k)
    ensures NewsRead(d, h, LoadNew(b, h, d.news[k], k, Usable(d)), k + 1)
  {
    hide FirstNew, NewPlace, LoadNew, Fits;
    var b' := LoadNew(b, h, d.news[k], k, Usable(d));
    LoadNewIs(b, h, d.news[k], k, Usable(d));
    FitsIsUsable(d);
    if !Fits(d) { SlotFree(d, h, b, k); }
    forall n: nat | n < k + 1 ensures NewEntry(d, h, b', n) { if n < k { assert NewEntry(d, h, b, n); } }
    forall s | s in b'.newSlots ensures TakenByFirst(d, h, b', k + 1, s) {
      if s in b.newSlots { assert TakenByFirst(d, h, b, k, s); }
    }
  }

  /** The loop over the addresses of the new table. */
  lemma {:induction false} NewsRule(d: Disk, h: Hashes, k: nat)
    requires k <= |d.news|
    ensures NewsRead(d, h, LoadNews(d, h, k), k)
    decreases k
  {
    hide NewEntry, TakenByFirst, LoadNew, Usable;
    if k > 0 {
      NewsRule(d, h, k - 1);
      NewsStep(d, h, LoadNews(d, h, k - 1), k - 1);
    }
  }

  // ----- The addresses of the tried table -----

  function TriedAt(d: Disk, h: Hashes, n: nat): Slot
    requires n < |d.trieds|
  {
    TriedPlace(h, d.trieds[n].address.service)
  }

  predicate FirstTried(d: Disk, h: Hashes, n: nat)
    requires n < |d.trieds|
  {
    forall m {:trigger TriedAt(d, h, m)} :: 0 <= m < n ==> TriedAt(d, h, m) != TriedAt(d, h, n)
  }

  /** How many of the first k addresses of the tried table find their slot free. */
  function KeptTried(d: Disk, h: Hashes, k: nat): (r: nat)
    requires k <= |d.trieds|
    ensures r <= k
    decreases k
  {
    if k == 0 then 0 else KeptTried(d, h, k - 1) + if FirstTried(d, h, k - 1) then 1 else 0
  }

  /** Address n of the tried table: entered under the next id if its slot was free, and lost if not. */
  ghost predicate TriedEntry(d: Disk, h: Hashes, b: Book, n: nat)
    requires n < |d.trieds|
  {
    FirstTried(d, h, n) ==>
      var id := |d.news| + KeptTried(d, h, n);
      && TriedAt(d, h, n) in b.triedSlots && b.triedSlots[TriedAt(d, h, n)] == id && id in b.info
      && b.info[id] == Info(d.trieds[n].address, d.trieds[n].source, d.trieds[n].lastSuccess, 0,
                            d.trieds[n].attempts, 0, true, id)
  }

  ghost predicate TriedFrom(d: Disk, h: Hashes, k: nat, s: Slot)
    requires k <= |d.trieds|
  {
    exists n {:trigger TriedAt(d, h, n)} :: 0 <= n < k && TriedAt(d, h, n) == s
  }

  ghost predicate TriedsRead(d: Disk, h: Hashes, b: Book, lost: nat, k: nat)
    requires k <= |d.trieds|
  {
    var news := LoadNews(d, h, |d.news|);
    var ids := |d.news| + KeptTried(d, h, k);
    && b.idCount == ids == |b.random| && (forall i: int :: i in b.info <==> 0 <= i < ids)
    && lost == k - KeptTried(d, h, k)
    && b.newSlots == news.newSlots && b.nNew == news.nNew && b.nTried == news.nTried
    && (forall i {:trigger b.info[i]} :: 0 <= i < |d.news| ==> i in news.info && b.info[i] == news.info[i])
    && (forall n: nat {:trigger TriedEntry(d, h, b, n)} :: n < k ==> TriedEntry(d, h, b, n))
    && (forall s {:trigger TriedFrom(d, h, k, s)} :: s in b.triedSlots <==> TriedFrom(d, h, k, s))
  }

  lemma LoadTriedIs(b: Book, lost: nat, h: Hashes, s: Saved)
    ensures var place := TriedPlace(h, s.address.service);
      LoadTried((b, lost), h, s) ==
        if place in b.triedSlots then (b, lost + 1)
        else (b.(random := b.random + [b.idCount],
                 info := b.info[b.idCount :=
                   Info(s.address, s.source, s.lastSuccess, 0, s.attempts, 0, true, |b.random|)],
                 ids := b.ids[s.address.service.ip := b.idCount],
                 triedSlots := b.triedSlots[place := b.idCount], idCount := b.idCount + 1), lost)
  {
  }

  lemma TriedFree(d: Disk, h: Hashes, k: nat)
    requires k < |d.trieds|
    ensures TriedFrom(d, h, k, TriedAt(d, h, k)) <==> !FirstTried(d, h, k)
  {
  }

  lemma TriedFromMore(d: Disk, h: Hashes, k: nat, s: Slot)
    requires k < |d.trieds|
    ensures TriedFrom(d, h, k + 1, s) <==> TriedFrom(d, h, k, s) || TriedAt(d, h, k) == s
  {
    if TriedFrom(d, h, k + 1, s) {
      var n :| 0 <= n < k + 1 && TriedAt(d, h, n) == s;
    }
  }

  lemma TriedEntryStays(d: Disk, h: Hashes, b: Book, b': Book, k: nat, n: nat)
    requires n < k < |d.trieds| && TriedEntry(d, h, b, n)
    requires forall s :: s in b.triedSlots ==> s in b'.triedSlots && b'.triedSlots[s] == b.triedSlots[s]
    requires forall i :: i in b.info ==> i in b'.info && b'.info[i] == b.info[i]
    ensures TriedEntry(d, h, b', n)
  {
  }

  lemma TriedsStep(d: Disk, h: Hashes, b: Book, lost: nat, k: nat)
    requires k < |d.trieds| && TriedsRead(d, h, b, lost, k)
    ensures var r := LoadTried((b, lost), h, d.trieds[k]); TriedsRead(d, h, r.0, r.1, k + 1)
  {
    hide FirstTried, TriedPlace, LoadTried, TriedFrom, TriedEntry, LoadNews;
    var (b', lost') := LoadTried((b, lost), h, d.trieds[k]);
    LoadTriedIs(b, lost, h, d.trieds[k]);
    TriedFree(d, h, k);
    forall s ensures s in b'.triedSlots <==> TriedFrom(d, h, k + 1, s) {
      TriedFromMore(d, h, k, s);
      assert s in b.triedSlots <==> TriedFrom(d, h, k, s);
    }
    assert TriedAt(d, h, k) in b.triedSlots <==> TriedFrom(d, h, k, TriedAt(d, h, k));
    var news := LoadNews(d, h, |d.news|);
    forall i | 0 <= i < |d.news| ensures i in news.info && b'.info[i] == news.info[i] {
      assert i in b.info && b'.info[i] == b.info[i];
    }
    forall n: nat | n < k + 1 ensures TriedEntry(d, h, b', n) {
      if n < k { TriedEntryStays(d, h, b, b', k, n); } else { NewTriedEntry(d, h, b, b', lost, k); }
    }
  }

  lemma NewTriedEntry(d: Disk, h: Hashes, b: Book, b': Book, lost: nat, k: nat)
    requires k < |d.trieds| && b.idCount == |d.news| + KeptTried(d, h, k) == |b.random|
    requires b' == LoadTried((b, lost), h, d.trieds[k]).0
    requires TriedAt(d, h, k) in b.triedSlots <==> !FirstTried(d, h, k)
    ensures TriedEntry(d, h, b', k)
  {
    hide LoadTried, TriedPlace, FirstTried;
    LoadTriedIs(b, lost, h, d.trieds[k]);
  }

  /** The loop over the addresses of the tried table. */
  lemma {:induction false} TriedsRule(d: Disk, h: Hashes, k: nat)
    requires k <= |d.trieds|
    ensures var (b, lost) := LoadTrieds(d, h, k); TriedsRead(d, h, b, lost, k)
    decreases k
  {
    hide TriedEntry, NewEntry, TakenByFirst, LoadTried, LoadNews;
    if k == 0 {
      NewsRule(d, h, |d.news|);
    } else {
      TriedsRule(d, h, k - 1);
      var (b, lost) := LoadTrieds(d, h, k - 1);
      TriedsStep(d, h, b, lost, k - 1);
    }
  }

  // ----- The indices of the buckets -----

  type Slots = map<Slot, int>

  /** The place of address n in a bucket. */
  function PlaceIn(d: Disk, h: Hashes, n: nat, bucket: nat): Slot
    requires n < |d.news|
  {
    (bucket, h.positionHash(d.news[n].address.service, true, bucket) % 64)
  }

  predicate HeldBy(m: Slots, s: Slot, n: nat) {
    s in m && m[s] == n
  }

  /** How many of the buckets below the given one hold address n. */
  function HeldBelow(m: Slots, d: Disk, h: Hashes, n: nat, bucket: nat): (r: nat)
    requires n < |d.news|
    decreases bucket
  {
    if bucket == 0 then 0
    else HeldBelow(m, d, h, n, bucket - 1) + if HeldBy(m, PlaceIn(d, h, n, bucket - 1), n) then 1 else 0
  }

  /** Place j of the list names an address that fewer than eight buckets below hold. */
  predicate Eligible(m: Slots, d: Disk, h: Hashes, bucket: nat, list: seq<int>, j: nat) {
    j < |list| && 0 <= list[j] < |d.news| && HeldBelow(m, d, h, list[j], bucket) < 8
  }

  /** The place in the bucket that place j of the list asks for. */
  function Asked(d: Disk, h: Hashes, bucket: nat, list: seq<int>, j: nat): Slot
    requires j < |list| && 0 <= list[j] < |d.news|
  {
    PlaceIn(d, h, list[j], bucket)
  }

  /** It is the first such that asks for that place. */
  ghost predicate Served(m: Slots, d: Disk, h: Hashes, bucket: nat, list: seq<int>, j: nat) {
    && Eligible(m, d, h, bucket, list, j)
    && forall i: nat {:trigger Eligible(m, d, h, bucket, list, i)} :: i < j && Eligible(m, d, h, bucket, list, i) ==>
         Asked(d, h, bucket, list, i) != Asked(d, h, bucket, list, j)
  }

  /** The first t places of the list of a bucket. */
  ghost predicate BucketServed(m: Slots, d: Disk, h: Hashes, bucket: nat, list: seq<int>, t: nat) {
    && (forall j: nat {:trigger Served(m, d, h, bucket, list, j)} :: j < t && Served(m, d, h, bucket, list, j) ==>
          HeldBy(m, Asked(d, h, bucket, list, j), list[j]))
    && (forall p: nat {:trigger AskedFor(m, d, h, bucket, list, t, p)} :: (bucket, p) in m ==>
          AskedFor(m, d, h, bucket, list, t, p))
  }

  ghost predicate AskedFor(m: Slots, d: Disk, h: Hashes, bucket: nat, list: seq<int>, t: nat, p: nat) {
    exists j: nat {:trigger Served(m, d, h, bucket, list, j)} :: j < t && Served(m, d, h, bucket, list, j)
      && Asked(d, h, bucket, list, j) == (bucket, p) && HeldBy(m, (bucket, p), list[j])
  }

  /** One more slot in a bucket does not count below it. */
  lemma {:induction false} HeldFrame(m: Slots, s: Slot, x: int, d: Disk, h: Hashes, n: nat, bucket: nat)
    requires n < |d.news| && s.0 >= bucket
    ensures HeldBelow(m[s := x], d, h, n, bucket) == HeldBelow(m, d, h, n, bucket)
    decreases bucket
  {
    if bucket > 0 { HeldFrame(m, s, x, d, h, n, bucket - 1); }
  }

  lemma ServedFrame(m: Slots, s: Slot, x: int, d: Disk, h: Hashes, bucket: nat, list: seq<int>, j: nat)
    requires s.0 >= bucket
    ensures Eligible(m[s := x], d, h, bucket, list, j) == Eligible(m, d, h, bucket, list, j)
    ensures Served(m[s := x], d, h, bucket, list, j) == Served(m, d, h, bucket, list, j)
  {
    var m' := m[s := x];
    forall i: nat ensures Eligible(m', d, h, bucket, list, i) == Eligible(m, d, h, bucket, list, i) {
      if i < |list| && 0 <= list[i] < |d.news| { HeldFrame(m, s, x, d, h, list[i], bucket); }
    }
    assert Served(m', d, h, bucket, list, j) ==> Served(m, d, h, bucket, list, j);
    assert Served(m, d, h, bucket, list, j) ==> Served(m', d, h, bucket, list, j);
  }

  /** The first eligible place of the list that asks for the same as place j. */
  lemma {:induction false} FirstAsking(m: Slots, d: Disk, h: Hashes, bucket: nat, list: seq<int>, j: nat)
    returns (i: nat)
    requires Eligible(m, d, h, bucket, list, j)
    ensures i <= j && Served(m, d, h, bucket, list, i) && Asked(d, h, bucket, list, i) == Asked(d, h, bucket, list, j)
    decreases j
  {
    i := j;
    if !Served(m, d, h, bucket, list, j) {
      var k: nat :| k < j && Eligible(m, d, h, bucket, list, k) &&
        Asked(d, h, bucket, list, k) == Asked(d, h, bucket, list, j);
      i := FirstAsking(m, d, h, bucket, list, k);
    }
  }

  /** The state after the first t indices of a bucket, and all of the buckets below. */
  ghost predicate IndicesRead(d: Disk, h: Hashes, b0: Book, b: Book, bucket: nat, t: nat) {
    && bucket <= |d.buckets| && b == b0.(info := b.info, newSlots := b.newSlots)
    && (forall i {:trigger EntryRead(d, h, b0, b, bucket, i)} :: EntryRead(d, h, b0, b, bucket, i))
    && (forall s {:trigger s in b.newSlots} :: s in b.newSlots ==> s.0 <= bucket)
    && (forall k: nat {:trigger BucketServed(b.newSlots, d, h, k, d.buckets[k], |d.buckets[k]|)} :: k < bucket ==>
          BucketServed(b.newSlots, d, h, k, d.buckets[k], |d.buckets[k]|))
    && if bucket < |d.buckets|
       then t <= |d.buckets[bucket]| && BucketServed(b.newSlots, d, h, bucket, d.buckets[bucket], t)
       else t == 0 && forall s {:trigger s in b.newSlots} :: s in b.newSlots ==> s.0 < bucket
  }

  /** An entry's references are the buckets that hold it; nothing else of it changed. */
  ghost predicate EntryRead(d: Disk, h: Hashes, b0: Book, b: Book, bucket: nat, i: int) {
    && (i in b.info <==> i in b0.info)
    && (i in b.info ==>
          b.info[i] == b0.info[i].(refCount := if 0 <= i < |d.news| then HeldBelow(b.newSlots, d, h, i, bucket + 1)
                                               else b0.info[i].refCount))
  }

  /** The book that the indices are read into: the addresses of the new table, none with a reference yet. */
  ghost predicate Unreferenced(d: Disk, b0: Book) {
    && b0.newSlots == map[] && b0.nNew == |d.news|
    && forall i {:trigger UnreferencedAt(d, b0, i)} :: 0 <= i < |d.news| ==> UnreferencedAt(d, b0, i)
  }

  ghost predicate UnreferencedAt(d: Disk, b0: Book, i: int)
    requires 0 <= i < |d.news|
  {
    i in b0.info && b0.info[i].refCount == 0 && b0.info[i].address == d.news[i].address
  }

  lemma LoadIndexIs(d: Disk, b: Book, h: Hashes, bucket: nat, index: int)
    requires b.nNew == |d.news|
    requires 0 <= index < |d.news| ==> index in b.info && b.info[index].address == d.news[index].address
    ensures var b' := LoadIndex(b, h, bucket, index, true);
      if 0 <= index < |d.news| && PlaceIn(d, h, index, bucket) !in b.newSlots && b.info[index].refCount < 8
      then b' == b.(info := b.info[index := b.info[index].(refCount := b.info[index].refCount + 1)],
                    newSlots := b.newSlots[PlaceIn(d, h, index, bucket) := index])
      else b' == b
  {
  }

  /** Whether the next index gets its place. */
  lemma NextIndex(d: Disk, h: Hashes, b0: Book, b: Book, bucket: nat, t: nat)
    requires Unreferenced(d, b0) && bucket < |d.buckets| && t < |d.buckets[bucket]|
    requires IndicesRead(d, h, b0, b, bucket, t)
    ensures var list := d.buckets[bucket]; var x := list[t];
      0 <= x < |d.news| ==>
        && x in b.info && b.info[x].address == d.news[x].address
        && (PlaceIn(d, h, x, bucket) !in b.newSlots && b.info[x].refCount < 8 <==>
              Served(b.newSlots, d, h, bucket, list, t))
  {
    var list, m := d.buckets[bucket], b.newSlots;
    var x := list[t];
    if 0 <= x < |d.news| {
      assert EntryRead(d, h, b0, b, bucket, x) && UnreferencedAt(d, b0, x);
      var s := PlaceIn(d, h, x, bucket);
      if s in m {
        assert AskedFor(m, d, h, bucket, list, t, s.1);
        var j: nat :| j < t && Served(m, d, h, bucket, list, j) && Asked(d, h, bucket, list, j) == s;
        assert Eligible(m, d, h, bucket, list, j);
      } else if Eligible(m, d, h, bucket, list, t) && !Served(m, d, h, bucket, list, t) {
        var j := FirstAsking(m, d, h, bucket, list, t);
        assert false;
      }
    }
  }

  lemma ServedStays(m: Slots, s: Slot, x: int, d: Disk, h: Hashes, bucket: nat, list: seq<int>, t: nat)
    requires BucketServed(m, d, h, bucket, list, t) && s !in m && s.0 >= bucket
    ensures s.0 > bucket ==> BucketServed(m[s := x], d, h, bucket, list, t)
    ensures forall j: nat {:trigger Served(m[s := x], d, h, bucket, list, j)} ::
      j < t && Served(m[s := x], d, h, bucket, list, j) ==> HeldBy(m[s := x], Asked(d, h, bucket, list, j), list[j])
    ensures forall p: nat :: (bucket, p) in m ==> AskedFor(m[s := x], d, h, bucket, list, t, p)
  {
    hide HeldBelow;
    var m' := m[s := x];
    forall j: nat | j < t && Served(m', d, h, bucket, list, j)
      ensures HeldBy(m', Asked(d, h, bucket, list, j), list[j])
    {
      ServedFrame(m, s, x, d, h, bucket, list, j);
    }
    forall p: nat | (bucket, p) in m ensures AskedFor(m', d, h, bucket, list, t, p) {
      assert AskedFor(m, d, h, bucket, list, t, p);
      var j: nat :| j < t && Served(m, d, h, bucket, list, j) && Asked(d, h, bucket, list, j) == (bucket, p) &&
        HeldBy(m, (bucket, p), list[j]);
      ServedFrame(m, s, x, d, h, bucket, list, j);
    }
  }

  /** The bucket with one more index of its list read. */
  lemma ServedNext(m: Slots, d: Disk, h: Hashes, bucket: nat, list: seq<int>, t: nat)
    requires BucketServed(m, d, h, bucket, list, t) && t < |list|
    ensures !Served(m, d, h, bucket, list, t) ==> BucketServed(m, d, h, bucket, list, t + 1)
    ensures Served(m, d, h, bucket, list, t) && Asked(d, h, bucket, list, t) !in m ==>
      BucketServed(m[Asked(d, h, bucket, list, t) := list[t]], d, h, bucket, list, t + 1)
  {
    hide HeldBelow;
    forall p: nat | AskedFor(m, d, h, bucket, list, t, p) ensures AskedFor(m, d, h, bucket, list, t + 1, p) {
      var j: nat :| j < t && Served(m, d, h, bucket, list, j) && Asked(d, h, bucket, list, j) == (bucket, p) &&
        HeldBy(m, (bucket, p), list[j]);
      assert j < t + 1;
    }
    if !Served(m, d, h, bucket, list, t) {
      forall p: nat | (bucket, p) in m ensures AskedFor(m, d, h, bucket, list, t + 1, p) {
        assert AskedFor(m, d, h, bucket, list, t, p);
      }
    } else if Asked(d, h, bucket, list, t) !in m {
      var s := Asked(d, h, bucket, list, t);
      var m' := m[s := list[t]];
      ServedStays(m, s, list[t], d, h, bucket, list, t);
      ServedFrame(m, s, list[t], d, h, bucket, list, t);
      forall j: nat | j < t + 1 && Served(m', d, h, bucket, list, j)
        ensures HeldBy(m', Asked(d, h, bucket, list, j), list[j]) {}
      forall p: nat | (bucket, p) in m' ensures AskedFor(m', d, h, bucket, list, t + 1, p) {
        if (bucket, p) in m {
          assert AskedFor(m', d, h, bucket, list, t, p);
          var j: nat :| j < t && Served(m', d, h, bucket, list, j) && Asked(d, h, bucket, list, j) == (bucket, p) &&
            HeldBy(m', (bucket, p), list[j]);
          assert j < t + 1;
        } else {
          assert Served(m', d, h, bucket, list, t);
        }
      }
    }
  }

  lemma HeldMore(m: Slots, d: Disk, h: Hashes, x: nat, i: nat, bucket: nat)
    requires x < |d.news| && i < |d.news| && PlaceIn(d, h, x, bucket) !in m
    ensures var m' := m[PlaceIn(d, h, x, bucket) := x];
      HeldBelow(m', d, h, i, bucket + 1) == HeldBelow(m, d, h, i, bucket + 1) + if i == x then 1 else 0
  {
    HeldFrame(m, PlaceIn(d, h, x, bucket), x, d, h, i, bucket);
  }

  /** One index. */
  lemma IndexStep(d: Disk, h: Hashes, b0: Book, b: Book, bucket: nat, t: nat)
    requires Unreferenced(d, b0) && bucket < |d.buckets| && t < |d.buckets[bucket]|
    requires IndicesRead(d, h, b0, b, bucket, t)
    ensures IndicesRead(d, h, b0, LoadIndex(b, h, bucket, d.buckets[bucket][t], true), bucket, t + 1)
  {
    hide BucketServed, Served, LoadIndex, PlaceIn, HeldBelow, Unreferenced;
    var list, m := d.buckets[bucket], b.newSlots;
    var x := list[t];
    var b' := LoadIndex(b, h, bucket, x, true);
    NextIndex(d, h, b0, b, bucket, t);
    assert b.nNew == |d.news| by { NewCounted(d, b0); }
    LoadIndexIs(d, b, h, bucket, x);
    ServedNext(m, d, h, bucket, list, t);
    ServedInList(m, d, h, bucket, list, t);
    if Served(m, d, h, bucket, list, t) {
      var s := PlaceIn(d, h, x, bucket);
      PlaceInBucket(d, h, x, bucket);
      forall i ensures EntryRead(d, h, b0, b', bucket, i) {
        assert EntryRead(d, h, b0, b, bucket, i);
        if 0 <= i < |d.news| { HeldMore(m, d, h, x, i, bucket); }
      }
      forall k: nat | k < bucket ensures BucketServed(b'.newSlots, d, h, k, d.buckets[k], |d.buckets[k]|) {
        ServedStays(m, s, x, d, h, k, d.buckets[k], |d.buckets[k]|);
      }
    } else {
      forall i ensures EntryRead(d, h, b0, b', bucket, i) { assert EntryRead(d, h, b0, b, bucket, i); }
    }
  }

  lemma NewCounted(d: Disk, b0: Book)
    requires Unreferenced(d, b0)
    ensures b0.nNew == |d.news|
  {
  }

  lemma PlaceInBucket(d: Disk, h: Hashes, n: nat, bucket: nat)
    requires n < |d.news|
    ensures PlaceIn(d, h, n, bucket).0 == bucket
  {
  }

  lemma ServedInList(m: Slots, d: Disk, h: Hashes, bucket: nat, list: seq<int>, j: nat)
    ensures Served(m, d, h, bucket, list, j) ==>
      j < |list| && 0 <= list[j] < |d.news| && Asked(d, h, bucket, list, j) == PlaceIn(d, h, list[j], bucket)
  {
  }

  /** The next bucket is begun. */
  lemma NextBucket(d: Disk, h: Hashes, b0: Book, b: Book, bucket: nat)
    requires bucket < |d.buckets| && IndicesRead(d, h, b0, b, bucket, |d.buckets[bucket]|)
    ensures IndicesRead(d, h, b0, b, bucket + 1, 0)
  {
    hide BucketServed, HeldBelow;
    var next := bucket + 1;
    forall i ensures EntryRead(d, h, b0, b, next, i) {
      assert EntryRead(d, h, b0, b, bucket, i);
      if 0 <= i < |d.news| { NotHeldYet(b.newSlots, d, h, i, next); }
    }
    if bucket + 1 < |d.buckets| { EmptyBucket(b.newSlots, d, h, bucket + 1, d.buckets[bucket + 1]); }
  }

  lemma NotHeldYet(m: Slots, d: Disk, h: Hashes, n: nat, bucket: nat)
    requires n < |d.news| && PlaceIn(d, h, n, bucket) !in m
    ensures HeldBelow(m, d, h, n, bucket + 1) == HeldBelow(m, d, h, n, bucket)
  {
  }

  lemma EmptyBucket(m: Slots, d: Disk, h: Hashes, bucket: nat, list: seq<int>)
    requires forall p: nat :: (bucket, p) !in m
    ensures BucketServed(m, d, h, bucket, list, 0)
  {
  }

  lemma {:induction false} BucketRule(d: Disk, h: Hashes, b0: Book, b: Book, bucket: nat, t: nat)
    requires Unreferenced(d, b0) && bucket < |d.buckets| && t <= |d.buckets[bucket]|
    requires IndicesRead(d, h, b0, b, bucket, 0)
    ensures IndicesRead(d, h, b0, LoadBucket(b, h, bucket, d.buckets[bucket][..t], true), bucket, t)
    decreases t
  {
    hide IndicesRead, Unreferenced, LoadIndex;
    if t > 0 {
      BucketRule(d, h, b0, b, bucket, t - 1);
      var list := d.buckets[bucket];
      assert list[..t][..t - 1] == list[..t - 1] && list[..t][t - 1] == list[t - 1];
      IndexStep(d, h, b0, LoadBucket(b, h, bucket, list[..t - 1], true), bucket, t - 1);
    }
  }

  /** The loop over the buckets, when the file fits. */
  lemma {:induction false} BucketsRule(d: Disk, h: Hashes, b0: Book, n: nat)
    requires Unreferenced(d, b0) && n <= |d.buckets| && Fits(d)
    ensures IndicesRead(d, h, b0, LoadBuckets(b0, h, d, n), n, 0)
    decreases n
  {
    hide Unreferenced, LoadBucket, EntryRead, BucketServed;
    FitsIsUsable(d);
    if n == 0 {
      NothingIndexed(d, h, b0);
    } else {
      hide IndicesRead, Usable;
      BucketsRule(d, h, b0, n - 1);
      var b := LoadBuckets(b0, h, d, n - 1);
      BucketRule(d, h, b0, b, n - 1, |d.buckets[n - 1]|);
      assert d.buckets[n - 1][..|d.buckets[n - 1]|] == d.buckets[n - 1];
      NextBucket(d, h, b0, LoadBuckets(b0, h, d, n), n - 1);
    }
  }

  lemma NothingIndexed(d: Disk, h: Hashes, b0: Book)
    requires Unreferenced(d, b0) && Fits(d)
    ensures IndicesRead(d, h, b0, b0, 0, 0)
  {
    hide BucketServed;
    EmptyBucket(b0.newSlots, d, h, 0, d.buckets[0]);
    forall i ensures EntryRead(d, h, b0, b0, 0, i) {
      if 0 <= i < |d.news| {
        assert UnreferencedAt(d, b0, i);
        assert HeldBelow(b0.newSlots, d, h, i, 1) == 0;
      }
    }
  }

  /** Otherwise the indices are passed over. */
  lemma {:induction false} UnusedBucket(b: Book, h: Hashes, bucket: nat, list: seq<int>)
    ensures LoadBucket(b, h, bucket, list, false) == b
    decreases |list|
  {
    if list != [] { UnusedBucket(b, h, bucket, list[..|list| - 1]); }
  }

  lemma {:induction false} UnusedBuckets(b: Book, h: Hashes, d: Disk, n: nat)
    requires n <= |d.buckets| && !Fits(d)
    ensures LoadBuckets(b, h, d, n) == b
    decreases n
  {
    FitsIsUsable(d);
    hide Usable, Fits;
    if n > 0 {
      UnusedBuckets(b, h, d, n - 1);
      UnusedBucket(b, h, n - 1, d.buckets[n - 1]);
    }
  }

  /**
   The book before entries without a place are deleted, for any file: the addresses of the new table under
   their numbers, those of the tried table that found their slot free behind them, and the slots of the new
   table as the indices say, or, if the file's buckets do not fit, one for each first address.
   */
  lemma TablesRule(d: Disk, h: Hashes)
    ensures var (b0, lost) := LoadTrieds(d, h, |d.trieds|);
      var (b, nLost) := Tables(d, h);
      && nLost == lost == |d.trieds| - KeptTried(d, h, |d.trieds|) && b.nTried == KeptTried(d, h, |d.trieds|)
      && NewsRead(d, h, LoadNews(d, h, |d.news|), |d.news|) && TriedsRead(d, h, b0, lost, |d.trieds|)
      && if Fits(d) then IndicesRead(d, h, b0.(nTried := b.nTried), b, 1024, 0) else b == b0.(nTried := b.nTried)
  {
    hide TriedEntry, NewEntry, TakenByFirst, LoadNews, LoadBuckets, IndicesRead, Unreferenced, UnreferencedAt;
    NewsRule(d, h, |d.news|);
    TriedsRule(d, h, |d.trieds|);
    var (b0, lost) := LoadTrieds(d, h, |d.trieds|);
    var b1 := b0.(nTried := b0.nTried - lost);
    if Fits(d) {
      NotReferenced(d, h, b0, lost, b1);
      BucketsRule(d, h, b1, |d.buckets|);
      IndicesLeave(d, h, b1, LoadBuckets(b1, h, d, |d.buckets|), |d.buckets|, 0);
    } else {
      UnusedBuckets(b1, h, d, |d.buckets|);
    }
  }

  lemma NoneTaken(d: Disk, h: Hashes, b: Book, k: nat)
    requires k <= |d.news| && NewsRead(d, h, b, k) && Fits(d)
    ensures b.newSlots == map[]
  {
    if b.newSlots != map[] {
      var s :| s in b.newSlots;
      OneTaken(d, h, b, k, s);
    }
  }

  lemma OneTaken(d: Disk, h: Hashes, b: Book, k: nat, s: Slot)
    requires k <= |d.news| && NewsRead(d, h, b, k) && s in b.newSlots
    ensures !Fits(d)
  {
    assert TakenByFirst(d, h, b, k, s);
  }

  lemma NotReferenced(d: Disk, h: Hashes, b0: Book, lost: nat, b: Book)
    requires Fits(d) && NewsRead(d, h, LoadNews(d, h, |d.news|), |d.news|) && TriedsRead(d, h, b0, lost, |d.trieds|)
    requires b == b0.(nTried := b.nTried)
    ensures Unreferenced(d, b)
  {
    hide LoadNews;
    var news := LoadNews(d, h, |d.news|);
    NoneTaken(d, h, news, |d.news|);
    forall i | 0 <= i < |d.news| ensures UnreferencedAt(d, b, i) {
      assert NewEntry(d, h, news, i);
      assert i in b0.info && news.info[i] == b0.info[i];
    }
  }

  lemma IndicesLeave(d: Disk, h: Hashes, b0: Book, b: Book, bucket: nat, t: nat)
    requires IndicesRead(d, h, b0, b, bucket, t)
    ensures b.nTried == b0.nTried
  {
  }

  // ----- The entries deleted -----

  predicate NoPlace(x: Info) {
    !x.inTried && x.refCount == 0
  }

  /** Deletion keeps the other entries but for their random position. */
  lemma DeletedOne(b: Book, id: int)
    requires RandomOk(b) && id in b.info && Deletable(b, id)
    ensures var b' := Deleted(b, id);
      && RandomOk(b') && b'.info.Keys == b.info.Keys - {id}
      && (forall i {:trigger b'.info[i]} :: i in b'.info ==>
            b'.info[i] == b.info[i].(randomPos := b'.info[i].randomPos))
      && b'.newSlots == b.newSlots && b'.triedSlots == b.triedSlots && b'.nNew == b.nNew - 1 && b'.nTried == b.nTried
  {
    hide RandomOk, Swapped;
    DeletedSwap(b, id);
    DropRandomOk(Swapped(b, b.info[id].randomPos, |b.random| - 1), id);
  }

  lemma DeletedSwap(b: Book, id: int)
    requires RandomOk(b) && id in b.info && Deletable(b, id)
    ensures var b' := Swapped(b, b.info[id].randomPos, |b.random| - 1);
      && RandomOk(b') && b'.info.Keys == b.info.Keys && |b'.random| == |b.random| > 0
      && b'.info[id].randomPos == |b.random| - 1
      && (forall i {:trigger b'.info[i]} :: i in b.info ==>
            b'.info[i] == b.info[i].(randomPos := b'.info[i].randomPos))
      && b'.newSlots == b.newSlots && b'.triedSlots == b.triedSlots && b'.nNew == b.nNew && b'.nTried == b.nTried
  {
    SwapToEnd(b, id);
    assert PlaceOf(b, id);
    SwapRandomOk(b, b.info[id].randomPos, |b.random| - 1);
  }

  /** Exactly the entries without a place among the first k ids go. */
  ghost predicate PrunedTo(b: Book, b': Book, n: nat, k: nat) {
    && RandomOk(b')
    && (forall i {:trigger i in b'.info} :: i in b'.info <==> i in b.info && !(0 <= i < k && NoPlace(b.info[i])))
    && (forall i {:trigger b'.info[i]} :: i in b'.info ==>
          i in b.info && b'.info[i] == b.info[i].(randomPos := b'.info[i].randomPos))
    && b'.newSlots == b.newSlots && b'.triedSlots == b.triedSlots
    && b'.nNew == b.nNew - n && b'.nTried == b.nTried && |b'.info| == |b.info| - n
  }

  lemma OneFewer(b: Book, b': Book, id: int)
    requires id in b.info && b'.info.Keys == b.info.Keys - {id}
    ensures |b'.info| == |b.info| - 1
  {
    assert |b'.info.Keys| == |b.info.Keys| - 1;
  }

  lemma {:induction false} PrunedRule(b: Book, k: nat)
    requires RandomOk(b)
    ensures var (b', n) := Pruned(b, k); PrunedTo(b, b', n, k)
    decreases k
  {
    hide Deleted, Deletable, RandomOk;
    if k > 0 {
      PrunedRule(b, k - 1);
      var (b1, n) := Pruned(b, k - 1);
      if Orphaned(b1, k - 1) {
        CanDelete(b1, k - 1);
        DeletedOne(b1, k - 1);
        OneFewer(b1, Deleted(b1, k - 1), k - 1);
      }
    }
  }

  lemma CanDelete(b: Book, id: int)
    requires RandomOk(b) && id in b.info
    ensures Deletable(b, id)
  {
    SwapToEnd(b, id);
  }
}
