/** Reading back what CAddrMan::Serialize wrote loses nothing but ids, random order and nLastTry (src/addrman.h). */
module AddrReload {
  import opened Wrappers
  import opened AddrCheck
  import opened AddrModel
  import opened AddrDisk

  // ----- Ids and their indices -----

  lemma {:induction false} NewIndex(b: Book, id: nat, k: nat)
    requires id < k && id in b.info && b.info[id].refCount != 0
    ensures |NewBelow(b, id)| < |NewBelow(b, k)| && NewBelow(b, k)[|NewBelow(b, id)|] == id
    decreases k
  {
    if id < k - 1 { NewIndex(b, id, k - 1); }
  }

  lemma {:induction false} NewIndexBack(b: Book, i: nat, k: nat)
    requires i < |NewBelow(b, k)|
    ensures UnkId(b, NewBelow(b, k)[i]) == i
    decreases k
  {
    if i < |NewBelow(b, k - 1)| { NewIndexBack(b, i, k - 1); }
  }

  lemma {:induction false} TriedIndex(b: Book, id: nat, k: nat)
    requires id < k && id in b.info && b.info[id].inTried
    ensures |TriedBelow(b, id)| < |TriedBelow(b, k)| && TriedBelow(b, k)[|TriedBelow(b, id)|] == id
    decreases k
  {
    if id < k - 1 { TriedIndex(b, id, k - 1); }
  }

  lemma {:induction false} TriedIndexBack(b: Book, i: nat, k: nat)
    requires i < |TriedBelow(b, k)|
    ensures |TriedBelow(b, TriedBelow(b, k)[i])| == i
    decreases k
  {
    if i < |TriedBelow(b, k - 1)| { TriedIndexBack(b, i, k - 1); }
  }

  lemma {:induction false} NewCount(b: Book, k: nat)
    ensures |set id | id in b.info && 0 <= id < k && b.info[id].refCount != 0| == |NewBelow(b, k)|
    decreases k
  {
    var now := set id | id in b.info && 0 <= id < k && b.info[id].refCount != 0;
    if k == 0 {
      assert now == {};
    } else {
      NewCount(b, k - 1);
      var before := set id | id in b.info && 0 <= id < k - 1 && b.info[id].refCount != 0;
      assert now == before + (if k - 1 in b.info && b.info[k - 1].refCount != 0 then {k - 1} else {});
    }
  }

  lemma {:induction false} TriedCount(b: Book, k: nat)
    ensures |set id | id in b.info && 0 <= id < k && b.info[id].inTried| == |TriedBelow(b, k)|
    decreases k
  {
    var now := set id | id in b.info && 0 <= id < k && b.info[id].inTried;
    if k == 0 {
      assert now == {};
    } else {
      TriedCount(b, k - 1);
      var before := set id | id in b.info && 0 <= id < k - 1 && b.info[id].inTried;
      assert now == before + (if k - 1 in b.info && b.info[k - 1].inTried then {k - 1} else {});
    }
  }

  /** The ids of the new table, then those of tried, in order. */
  function News(b: Book): seq<int>
    requires b.idCount >= 0
  {
    NewBelow(b, b.idCount)
  }

  function Trieds(b: Book): seq<int>
    requires b.idCount >= 0
  {
    TriedBelow(b, b.idCount)
  }

  function Size(b: Book): nat
    requires b.idCount >= 0
  {
    |News(b)| + |Trieds(b)|
  }

  /** The id that becomes i, and what an id becomes. */
  function IdOf(b: Book, i: nat): (id: int)
    requires b.idCount >= 0 && i < Size(b)
    ensures 0 <= id < b.idCount && id in b.info
  {
    if i < |News(b)| then News(b)[i] else Trieds(b)[i - |News(b)|]
  }

  function Rank(b: Book, id: int): nat
    requires b.idCount >= 0 && id in b.info && 0 <= id
  {
    if b.info[id].inTried then |News(b)| + |TriedBelow(b, id)| else UnkId(b, id)
  }

  ghost predicate Sound(b: Book, h: Hashes) {
    b.idCount >= 0 && IdsOk(b) && EntriesOk(b, {}) && TablesOk(b, h)
  }

  /** An entry is in one table or the other. */
  lemma OneTable(b: Book, h: Hashes, id: int)
    requires Sound(b, h) && id in b.info
    ensures 0 <= id < b.idCount && (b.info[id].refCount != 0 <==> !b.info[id].inTried) && b.info[id].refCount >= 0
    ensures b.info[id].Ip() in b.ids && b.ids[b.info[id].Ip()] == id
  {
    assert IdAt(b, id) && EntryOk(b, {}, id);
  }

  lemma RankBack(b: Book, h: Hashes, id: int)
    requires Sound(b, h) && id in b.info
    ensures 0 <= id && Rank(b, id) < Size(b) && IdOf(b, Rank(b, id)) == id
    ensures Rank(b, id) < |News(b)| <==> !b.info[id].inTried
  {
    hide IdsOk, TablesOk, EntriesOk, NewBelow, TriedBelow;
    OneTable(b, h, id);
    if b.info[id].inTried { TriedIndex(b, id, b.idCount); } else { NewIndex(b, id, b.idCount); }
  }

  lemma IdBack(b: Book, h: Hashes, i: nat)
    requires Sound(b, h) && i < Size(b)
    ensures IdOf(b, i) in b.info && 0 <= IdOf(b, i) && Rank(b, IdOf(b, i)) == i
    ensures i < |News(b)| <==> !b.info[IdOf(b, i)].inTried
  {
    hide IdsOk, TablesOk, EntriesOk, NewBelow, TriedBelow;
    OneTable(b, h, IdOf(b, i));
    if i < |News(b)| { NewIndexBack(b, i, b.idCount); } else { TriedIndexBack(b, i - |News(b)|, b.idCount); }
  }

  // ----- The book that comes back -----

  /** The entry of id i: its own, with nLastTry forgotten and its place in the new random order. */
  function Entry(b: Book, i: nat): Info
    requires b.idCount >= 0 && i < Size(b)
  {
    b.info[IdOf(b, i)].(lastTry := 0, randomPos := i)
  }

  ghost function Renamed(b: Book, slots: map<Slot, int>): map<Slot, int>
    requires b.idCount >= 0 && forall s :: s in slots ==> slots[s] in b.info && 0 <= slots[s]
  {
    map s | s in slots :: Rank(b, slots[s])
  }

  lemma SlotIds(b: Book, h: Hashes)
    requires Sound(b, h)
    ensures forall s :: s in b.newSlots ==> b.newSlots[s] in b.info && 0 <= b.newSlots[s]
    ensures forall s :: s in b.triedSlots ==> b.triedSlots[s] in b.info && 0 <= b.triedSlots[s]
    ensures forall a :: a in b.ids ==> b.ids[a] in b.info && 0 <= b.ids[a]
  {
    forall s | s in b.newSlots ensures b.newSlots[s] in b.info && 0 <= b.newSlots[s] {
      assert FreshSlotOk(b, h, s) && IdAt(b, b.newSlots[s]);
    }
    forall s | s in b.triedSlots ensures b.triedSlots[s] in b.info && 0 <= b.triedSlots[s] {
      assert TriedSlotOk(b, h, s) && IdAt(b, b.triedSlots[s]);
    }
    forall a | a in b.ids ensures b.ids[a] in b.info && 0 <= b.ids[a] { assert AddressAt(b, a) && IdAt(b, b.ids[a]); }
  }

  /** All slots of the two tables hold the same addresses under their new ids; the reference counts are the same. */
  ghost function Reloaded(b: Book, h: Hashes): Book
    requires Sound(b, h)
  {
    SlotIds(b, h);
    Book(map i | 0 <= i < Size(b) :: Entry(b, i),
         map a | a in b.ids :: Rank(b, b.ids[a]),
         seq(Size(b), i => i),
         Renamed(b, b.triedSlots),
         Renamed(b, b.newSlots),
         |Trieds(b)|, |News(b)|, Size(b))
  }

  // ----- The address lists -----

  /** The book with the first n addresses, before any slot of the new table. */
  ghost function Stage(b: Book, h: Hashes, n: nat, idCount: int): Book
    requires Sound(b, h) && n <= Size(b)
  {
    SlotIds(b, h);
    Book(map i | 0 <= i < n :: Entry(b, i).(refCount := 0),
         map a | a in b.ids && Rank(b, b.ids[a]) < n :: Rank(b, b.ids[a]),
         seq(n, i => i),
         map s | s in b.triedSlots && Rank(b, b.triedSlots[s]) < n :: Rank(b, b.triedSlots[s]),
         map[], |Trieds(b)|, |News(b)|, idCount)
  }

  lemma MoreRandom(n: nat)
    ensures seq(n, i => i) + [n] == seq(n + 1, i => i)
  {
  }

  lemma StageInfo(b: Book, h: Hashes, n: nat, c: int, c': int)
    requires Sound(b, h) && n < Size(b)
    ensures Stage(b, h, n, c).info[n := Entry(b, n).(refCount := 0)] == Stage(b, h, n + 1, c').info
  {
    hide Entry, Rank, Size, IdsOk, TablesOk, EntriesOk;
    var f, g := Stage(b, h, n, c).info[n := Entry(b, n).(refCount := 0)], Stage(b, h, n + 1, c').info;
    forall i ensures (i in f <==> i in g) && (i in f ==> f[i] == g[i]) {}
    SameMap(f, g);
  }

  lemma StageIds(b: Book, h: Hashes, n: nat, c: int, c': int)
    requires Sound(b, h) && n < Size(b)
    ensures Stage(b, h, n, c).ids[Entry(b, n).Ip() := n] == Stage(b, h, n + 1, c').ids
  {
    SlotIds(b, h);
    IdBack(b, h, n);
    OneTable(b, h, IdOf(b, n));
    var ip := Entry(b, n).Ip();
    var f, g := Stage(b, h, n, c).ids[ip := n], Stage(b, h, n + 1, c').ids;
    forall a ensures (a in f <==> a in g) && (a in f ==> f[a] == g[a]) { OwnAddress(b, h, n, a); }
    hide *;
    SameMap(f, g);
  }

  /** Only its own address leads to an id. */
  lemma OwnAddress(b: Book, h: Hashes, n: nat, a: NetAddr)
    requires Sound(b, h) && n < Size(b)
    ensures a in b.ids && b.ids[a] in b.info && 0 <= b.ids[a] && Rank(b, b.ids[a]) == n ==> a == Entry(b, n).Ip()
  {
    hide TablesOk, EntriesOk;
    if a in b.ids {
      assert AddressAt(b, a);
      RankBack(b, h, b.ids[a]);
    }
  }

  /** The slot of a tried address: it leads to nobody else. */
  lemma OwnSlot(b: Book, h: Hashes, n: nat)
    requires Sound(b, h) && |News(b)| <= n < Size(b)
    ensures var slot := TriedSlot(h, Entry(b, n));
      slot in b.triedSlots && b.triedSlots[slot] == IdOf(b, n)
    ensures forall s :: s in b.triedSlots && b.triedSlots[s] == IdOf(b, n) ==> s == TriedSlot(h, Entry(b, n))
  {
    IdBack(b, h, n);
    var id := IdOf(b, n);
    assert b.info[id].inTried;
    forall s | s in b.triedSlots && b.triedSlots[s] == id ensures s == TriedSlot(h, Entry(b, n)) {
      assert TriedSlotOk(b, h, s);
    }
  }

  lemma StageTried(b: Book, h: Hashes, n: nat, c: int, c': int)
    requires Sound(b, h) && n < Size(b)
    ensures if n < |News(b)| then Stage(b, h, n, c).triedSlots == Stage(b, h, n + 1, c').triedSlots
            else TriedSlot(h, Entry(b, n)) !in Stage(b, h, n, c).triedSlots &&
                 Stage(b, h, n, c).triedSlots[TriedSlot(h, Entry(b, n)) := n] == Stage(b, h, n + 1, c').triedSlots
  {
    SlotIds(b, h);
    IdBack(b, h, n);
    forall s | s in b.triedSlots
      ensures Rank(b, b.triedSlots[s]) == n <==> b.triedSlots[s] == IdOf(b, n)
      ensures b.info[b.triedSlots[s]].inTried
    {
      assert TriedSlotOk(b, h, s);
      RankBack(b, h, b.triedSlots[s]);
    }
    if n >= |News(b)| { OwnSlot(b, h, n); }
    hide Sound, Rank, IdOf, Size, Entry, TriedSlot;
    var f, g := Stage(b, h, n, c).triedSlots, Stage(b, h, n + 1, c').triedSlots;
    if n < |News(b)| {
      forall s ensures (s in f <==> s in g) && (s in f ==> f[s] == g[s]) {}
      SameMap(f, g);
    } else {
      var f' := f[TriedSlot(h, Entry(b, n)) := n];
      forall s ensures (s in f' <==> s in g) && (s in f' ==> f'[s] == g[s]) {}
      SameMap(f', g);
    }
  }

  lemma ReadNew(b: Book, h: Hashes, n: nat)
    requires Sound(b, h) && n < |News(b)|
    ensures LoadNew(Stage(b, h, n, 0), h, SavedInfo(b.info[News(b)[n]]), n, true) == Stage(b, h, n + 1, 0)
  {
    IdBack(b, h, n);
    StageInfo(b, h, n, 0, 0);
    StageIds(b, h, n, 0, 0);
    StageTried(b, h, n, 0, 0);
    MoreRandom(n);
    hide IdsOk, TablesOk, EntriesOk, Rank, Slotted;
    assert InfoOf(SavedInfo(b.info[News(b)[n]])).(randomPos := n) == Entry(b, n).(refCount := 0);
  }

  lemma ReadTried(b: Book, h: Hashes, n: nat)
    requires Sound(b, h) && n < |Trieds(b)|
    ensures var m := |News(b)| + n;
      LoadTried((Stage(b, h, m, m), 0), h, SavedInfo(b.info[Trieds(b)[n]])) == (Stage(b, h, m + 1, m + 1), 0)
  {
    hide IdsOk, TablesOk, EntriesOk, Rank, Stage, LoadTried, TriedSlot, Entry, InfoOf, SavedInfo, NewBelow, TriedBelow;
    var m := |News(b)| + n;
    var x := Entry(b, m).(refCount := 0);
    TriedEntry(b, h, n);
    StageInfo(b, h, m, m, m + 1);
    StageIds(b, h, m, m, m + 1);
    StageTried(b, h, m, m, m + 1);
    StageParts(b, h, m, m);
    StageParts(b, h, m + 1, m + 1);
    MoreRandom(m);
    LoadFree(Stage(b, h, m, m), h, SavedInfo(b.info[Trieds(b)[n]]), x);
  }

  /** The other fields of a stage. */
  lemma StageParts(b: Book, h: Hashes, n: nat, c: int)
    requires Sound(b, h) && n <= Size(b)
    ensures var s := Stage(b, h, n, c);
      s.random == seq(n, i => i) && s.idCount == c &&
      s == Book(s.info, s.ids, seq(n, i => i), s.triedSlots, map[], |Trieds(b)|, |News(b)|, c)
  {
  }

  /** A saved address of the tried table is the entry it was. */
  lemma TriedEntry(b: Book, h: Hashes, n: nat)
    requires Sound(b, h) && n < |Trieds(b)|
    ensures var m := |News(b)| + n; var x := Entry(b, m).(refCount := 0);
      && InfoOf(SavedInfo(b.info[Trieds(b)[n]])).(randomPos := m, inTried := true) == x
      && x.Ip() == Entry(b, m).Ip() && TriedSlot(h, x) == TriedSlot(h, Entry(b, m))
  {
    IdBack(b, h, |News(b)| + n);
  }

  lemma LoadFree(t: Book, h: Hashes, s: Saved, x: Info)
    requires x == InfoOf(s).(randomPos := |t.random|, inTried := true) && TriedSlot(h, x) !in t.triedSlots
    ensures LoadTried((t, 0), h, s) ==
      (Book(t.info[t.idCount := x], t.ids[x.Ip() := t.idCount], t.random + [t.idCount],
            t.triedSlots[TriedSlot(h, x) := t.idCount], t.newSlots, t.nTried, t.nNew, t.idCount + 1), 0)
  {
    hide TriedSlot;
  }

  lemma StageStart(b: Book, h: Hashes)
    requires Sound(b, h)
    ensures Stage(b, h, 0, 0) == NOTHING.(nNew := |News(b)|, nTried := |Trieds(b)|)
  {
    hide IdsOk, TablesOk, EntriesOk, Rank, Entry;
    assert seq(0, i => i) == [];
  }

  lemma {:induction false} NewsRead(b: Book, h: Hashes, n: nat)
    requires Sound(b, h) && n <= |News(b)|
    ensures LoadNews(Written(b), h, n) == Stage(b, h, n, 0)
    decreases n
  {
    hide LoadNew, Stage, IdsOk, TablesOk, EntriesOk, BucketsUpTo, NewBelow, TriedBelow;
    if n == 0 {
      StageStart(b, h);
    } else {
      NewsRead(b, h, n - 1);
      ReadNew(b, h, n - 1);
    }
  }

  lemma {:induction false} TriedsRead(b: Book, h: Hashes, n: nat)
    requires Sound(b, h) && n <= |Trieds(b)|
    ensures LoadTrieds(Written(b), h, n) == (Stage(b, h, |News(b)| + n, |News(b)| + n), 0)
    decreases n
  {
    hide LoadTried, IdsOk, TablesOk, EntriesOk, BucketsUpTo, NewBelow, TriedBelow, LoadNews, Rank, Entry;
    if n == 0 {
      NewsRead(b, h, |News(b)|);
    } else {
      TriedsRead(b, h, n - 1);
      ReadTried(b, h, n - 1);
    }
  }

  // ----- The buckets -----

  /** Slots in the order in which the buckets are written. */
  predicate Before(s: Slot, bucket: nat, p: nat) {
    s.0 < bucket || (s.0 == bucket && s.1 < p)
  }

  /** The slots of an id that were read already. */
  ghost function Filled(b: Book, id: int, bucket: nat, p: nat): set<Slot> {
    set s | s in b.newSlots && b.newSlots[s] == id && Before(s, bucket, p)
  }

  ghost function Filling(b: Book, h: Hashes, bucket: nat, p: nat): Book
    requires Sound(b, h)
  {
    SlotIds(b, h);
    Book(map i | 0 <= i < Size(b) :: Entry(b, i).(refCount := |Filled(b, IdOf(b, i), bucket, p)|),
         map a | a in b.ids :: Rank(b, b.ids[a]),
         seq(Size(b), i => i),
         Renamed(b, b.triedSlots),
         map s | s in b.newSlots && Before(s, bucket, p) :: Rank(b, b.newSlots[s]),
         |Trieds(b)|, |News(b)|, Size(b))
  }

  lemma FillingStart(b: Book, h: Hashes)
    requires Sound(b, h)
    ensures Stage(b, h, Size(b), Size(b)) == Filling(b, h, 0, 0)
  {
    SlotIds(b, h);
    forall id ensures Filled(b, id, 0, 0) == {} {}
    var f, g := Stage(b, h, Size(b), Size(b)), Filling(b, h, 0, 0);
    forall s | s in b.triedSlots ensures Rank(b, b.triedSlots[s]) < Size(b) { RankBack(b, h, b.triedSlots[s]); }
    forall a | a in b.ids ensures Rank(b, b.ids[a]) < Size(b) { RankBack(b, h, b.ids[a]); }
    hide Sound, Rank, Entry, Size, IdOf;
    SameMap(f.info, g.info);
    SameMap(f.ids, g.ids);
    SameMap(f.triedSlots, g.triedSlots);
    SameMap(f.newSlots, g.newSlots);
  }

  /** The slot an index goes to is the one it was written for, and it is still free. */
  lemma IndexSlot(b: Book, h: Hashes, bucket: nat, p: nat)
    requires Sound(b, h) && (bucket, p) in b.newSlots
    ensures var s := (bucket, p); var id := b.newSlots[s];
      && id in b.info && 0 <= id && Rank(b, id) < |News(b)| && Rank(b, id) == UnkId(b, id)
      && NewSlot(h, Filling(b, h, bucket, p).info[Rank(b, id)], bucket) == s
      && s !in Filling(b, h, bucket, p).newSlots
      && |Filled(b, id, bucket, p)| < NEW_BUCKETS_PER_ADDRESS
  {
    var s := (bucket, p);
    var id := b.newSlots[s];
    assert FreshSlotOk(b, h, s);
    RankBack(b, h, id);
    assert EntryOk(b, {}, id);
    FilledGrows(b, id, bucket, p);
  }

  lemma FilledGrows(b: Book, id: int, bucket: nat, p: nat)
    ensures |Filled(b, id, bucket, p)| <= |SlotsOf(b, id)|
    ensures |Filled(b, id, bucket, p + 1)| ==
      |Filled(b, id, bucket, p)| + (if (bucket, p) in b.newSlots && b.newSlots[(bucket, p)] == id then 1 else 0)
    ensures (bucket, p) in b.newSlots && b.newSlots[(bucket, p)] == id ==> |Filled(b, id, bucket, p)| < |SlotsOf(b, id)|
  {
    var now, next := Filled(b, id, bucket, p), Filled(b, id, bucket, p + 1);
    SubsetSize(now, SlotsOf(b, id));
    if (bucket, p) in b.newSlots && b.newSlots[(bucket, p)] == id {
      assert next == now + {(bucket, p)};
      SubsetSize(next, SlotsOf(b, id));
    } else {
      assert next == now;
    }
  }

  lemma FillingInfo(b: Book, h: Hashes, bucket: nat, p: nat, i: nat)
    requires Sound(b, h) && i < Size(b)
    ensures var f, g := Filling(b, h, bucket, p).info[i], Filling(b, h, bucket, p + 1).info[i]; var s := (bucket, p);
      && (s in b.newSlots ==> b.newSlots[s] in b.info && 0 <= b.newSlots[s])
      && g == if s in b.newSlots && Rank(b, b.newSlots[s]) == i then f.(refCount := f.refCount + 1) else f
  {
    hide IdsOk, TablesOk, EntriesOk, Entry, Rank, IdOf, Filled;
    var s := (bucket, p);
    FilledGrows(b, IdOf(b, i), bucket, p);
    IdBack(b, h, i);
    SlotIds(b, h);
    if s in b.newSlots { RankBack(b, h, b.newSlots[s]); }
  }

  /** Nothing but the slots and one count of references changes from one position to the next. */
  lemma FillingStep(b: Book, h: Hashes, bucket: nat, p: nat)
    requires Sound(b, h)
    ensures var f, g := Filling(b, h, bucket, p), Filling(b, h, bucket, p + 1);
      if (bucket, p) in b.newSlots then
        b.newSlots[(bucket, p)] in b.info && 0 <= b.newSlots[(bucket, p)] &&
        Rank(b, b.newSlots[(bucket, p)]) in f.info && g == Slotted(f, (bucket, p), Rank(b, b.newSlots[(bucket, p)]))
      else g == f
  {
    hide IdsOk, TablesOk, EntriesOk, Rank, Entry, Size, IdOf, Filled;
    SlotIds(b, h);
    var f, g := Filling(b, h, bucket, p), Filling(b, h, bucket, p + 1);
    var s := (bucket, p);
    forall i | 0 <= i < Size(b)
      ensures g.info[i] ==
        if s in b.newSlots && Rank(b, b.newSlots[s]) == i then f.info[i].(refCount := f.info[i].refCount + 1)
        else f.info[i]
    {
      FillingInfo(b, h, bucket, p, i);
    }
    if s in b.newSlots {
      RankBack(b, h, b.newSlots[s]);
      var k := Slotted(f, s, Rank(b, b.newSlots[s]));
      SameMap(g.info, k.info);
      SameMap(g.newSlots, k.newSlots);
    } else {
      SameMap(g.info, f.info);
      SameMap(g.newSlots, f.newSlots);
    }
  }

  lemma {:induction false} BucketRead(b: Book, h: Hashes, bucket: nat, p: nat)
    requires Sound(b, h)
    ensures LoadBucket(Filling(b, h, bucket, 0), h, bucket, BucketUpTo(b, bucket, p), true) == Filling(b, h, bucket, p)
    decreases p
  {
    hide Sound, Rank, Filling, Slotted, LoadIndex, UnkId;
    if p > 0 {
      BucketRead(b, h, bucket, p - 1);
      var list := BucketUpTo(b, bucket, p - 1);
      FillingStep(b, h, bucket, p - 1);
      if (bucket, p - 1) in b.newSlots {
        LoadBucketAppend(Filling(b, h, bucket, 0), h, bucket, list, UnkId(b, b.newSlots[(bucket, p - 1)]));
        IndexRead(b, h, bucket, p - 1);
      } else {
        assert list + [] == list;
      }
    }
  }

  lemma LoadBucketAppend(t: Book, h: Hashes, bucket: nat, list: seq<int>, x: int)
    ensures LoadBucket(t, h, bucket, list + [x], true)
      == LoadIndex(LoadBucket(t, h, bucket, list, true), h, bucket, x, true)
  {
    hide LoadIndex;
    assert (list + [x])[..|list|] == list;
  }

  lemma IndexRead(b: Book, h: Hashes, bucket: nat, p: nat)
    requires Sound(b, h) && (bucket, p) in b.newSlots
    ensures LoadIndex(Filling(b, h, bucket, p), h, bucket, UnkId(b, b.newSlots[(bucket, p)]), true)
      == Filling(b, h, bucket, p + 1)
  {
    IndexSlot(b, h, bucket, p);
    FillingStep(b, h, bucket, p);
    FillingAt(b, h, bucket, p, UnkId(b, b.newSlots[(bucket, p)]));
    hide Sound, Rank, Filling, Slotted, UnkId, NewSlot;
  }

  lemma FillingAt(b: Book, h: Hashes, bucket: nat, p: nat, i: nat)
    requires Sound(b, h) && i < |News(b)|
    ensures var f := Filling(b, h, bucket, p);
      i in f.info && f.nNew == |News(b)| && f.info[i].refCount == |Filled(b, IdOf(b, i), bucket, p)|
    ensures forall id :: id in b.info && 0 <= id && Rank(b, id) == i ==> IdOf(b, i) == id
  {
    forall id | id in b.info && 0 <= id && Rank(b, id) == i ensures IdOf(b, i) == id { RankBack(b, h, id); }
  }

  /** The end of a bucket is the start of the next. */
  lemma NextBucket(b: Book, h: Hashes, bucket: nat)
    requires Sound(b, h)
    ensures Filling(b, h, bucket, BUCKET_SIZE) == Filling(b, h, bucket + 1, 0)
  {
    var f, g := Filling(b, h, bucket, BUCKET_SIZE), Filling(b, h, bucket + 1, 0);
    forall s | s in b.newSlots ensures Before(s, bucket, BUCKET_SIZE) <==> Before(s, bucket + 1, 0) {
      assert FreshSlotOk(b, h, s);
    }
    forall id ensures Filled(b, id, bucket, BUCKET_SIZE) == Filled(b, id, bucket + 1, 0) {}
    SlotIds(b, h);
    hide Sound, Rank, Entry, Size, IdOf, Filled, Before;
    SameMap(f.info, g.info);
    SameMap(f.newSlots, g.newSlots);
  }

  lemma {:induction false} BucketsRead(b: Book, h: Hashes, n: nat)
    requires Sound(b, h) && n <= NEW_BUCKET_COUNT
    ensures LoadBuckets(Filling(b, h, 0, 0), h, Written(b), n) == Filling(b, h, n, 0)
    decreases n
  {
    hide Rank, Filling, LoadBucket, BucketUpTo, IdsOk, TablesOk, EntriesOk, SavedAll, News, Trieds;
    if n > 0 {
      BucketsRead(b, h, n - 1);
      BucketRead(b, h, n - 1, BUCKET_SIZE);
      NextBucket(b, h, n - 1);
    }
  }

  // ----- The whole -----

  lemma AllFilled(b: Book, h: Hashes)
    requires Sound(b, h)
    ensures Filling(b, h, NEW_BUCKET_COUNT, 0) == Reloaded(b, h)
  {
    var f, g := Filling(b, h, NEW_BUCKET_COUNT, 0), Reloaded(b, h);
    SlotIds(b, h);
    forall s | s in b.newSlots ensures Before(s, NEW_BUCKET_COUNT, 0) { assert FreshSlotOk(b, h, s); }
    forall i | 0 <= i < Size(b) ensures f.info[i] == g.info[i] {
      assert Filled(b, IdOf(b, i), NEW_BUCKET_COUNT, 0) == SlotsOf(b, IdOf(b, i));
      assert EntryOk(b, {}, IdOf(b, i));
    }
    hide Sound, Rank, Entry, Size, IdOf, Filled, Before;
    SameMap(f.info, g.info);
    SameMap(f.newSlots, g.newSlots);
  }

  lemma {:induction false} NothingPruned(b: Book, k: nat)
    requires forall i :: i in b.info ==> !Orphaned(b, i)
    ensures Pruned(b, k) == (b, 0)
    decreases k
  {
    hide Orphaned, Deletable, Deleted;
    if k > 0 {
      NothingPruned(b, k - 1);
      assert Orphaned(b, k - 1) ==> k - 1 in b.info by { OrphanIsKnown(b, k - 1); }
    }
  }

  lemma OrphanIsKnown(b: Book, id: int)
    ensures Orphaned(b, id) ==> id in b.info
  {
  }

  lemma NoOrphans(b: Book, h: Hashes)
    requires Sound(b, h)
    ensures forall i :: i in Reloaded(b, h).info ==> !Orphaned(Reloaded(b, h), i)
  {
    forall i | 0 <= i < Size(b) ensures !Orphaned(Reloaded(b, h), i) {
      OneTable(b, h, IdOf(b, i));
    }
  }

  lemma TablesRead(b: Book, h: Hashes)
    requires Sound(b, h)
    ensures Tables(Written(b), h) == (Reloaded(b, h), 0)
  {
    hide Rank, Filling, LoadBuckets, LoadTrieds, IdsOk, TablesOk, EntriesOk, Stage, Reloaded, NewBelow, TriedBelow;
    TriedsRead(b, h, |Trieds(b)|);
    FillingStart(b, h);
    BucketsRead(b, h, NEW_BUCKET_COUNT);
    AllFilled(b, h);
    StageParts(b, h, Size(b), Size(b));
  }

  /**
   Unserialize after Serialize, into a fresh object: nothing is lost (nLost and nLostUnk are 0), and
   the book is the old one with new ids, the ids' order as random order and no nLastTry.
   */
  lemma ReloadLosesNothing(b: Book, h: Hashes)
    requires Consistent(b, h)
    ensures Sound(b, h) && Loaded(Written(b), h) == (Reloaded(b, h), 0, 0)
    ensures |News(b)| == b.nNew && |Trieds(b)| == b.nTried
  {
    hide IdsOk, TablesOk, EntriesOk, Tables, Reloaded, Written, NewBelow, TriedBelow;
    SoundBook(b, h);
    TablesRead(b, h);
    NoOrphans(b, h);
    NothingPruned(Reloaded(b, h), Size(b));
    ReloadedSize(b, h);
    NewCount(b, b.idCount);
    TriedCount(b, b.idCount);
    forall id | id in b.info
      ensures 0 <= id < b.idCount && (b.info[id].refCount != 0 <==> !b.info[id].inTried)
    {
      OneTable(b, h, id);
    }
    assert UntriedIds(b) == set id | id in b.info && 0 <= id < b.idCount && b.info[id].refCount != 0;
    assert TriedIds(b) == set id | id in b.info && 0 <= id < b.idCount && b.info[id].inTried;
  }

  lemma SoundBook(b: Book, h: Hashes)
    requires Consistent(b, h)
    ensures Sound(b, h)
  {
  }

  lemma ReloadedSize(b: Book, h: Hashes)
    requires Sound(b, h)
    ensures Reloaded(b, h).idCount == Size(b)
  {
  }

  // ----- The book that came back passes Check_ again -----

  lemma ReloadedRandom(b: Book, h: Hashes)
    requires Sound(b, h)
    ensures RandomOk(Reloaded(b, h))
  {
    hide Sound, Rank, IdOf, Size, Renamed;
    var r := Reloaded(b, h);
    forall i | i in r.info ensures PlaceOf(r, i) {}
    forall i | 0 <= i < |r.random| ensures IdIn(r, i) {}
  }

  lemma ReloadedIds(b: Book, h: Hashes)
    requires Sound(b, h)
    ensures IdsOk(Reloaded(b, h))
  {
    SlotIds(b, h);
    var r := Reloaded(b, h);
    forall i | i in r.info ensures IdAt(r, i) {
      IdBack(b, h, i);
      OneTable(b, h, IdOf(b, i));
    }
    forall a | a in r.ids ensures AddressAt(r, a) {
      RankBack(b, h, b.ids[a]);
      assert AddressAt(b, a);
    }
  }

  lemma SameSlots(b: Book, h: Hashes, i: nat)
    requires Sound(b, h) && i < Size(b)
    ensures SlotsOf(Reloaded(b, h), i) == SlotsOf(b, IdOf(b, i))
  {
    SlotIds(b, h);
    IdBack(b, h, i);
    forall s | s in b.newSlots ensures Rank(b, b.newSlots[s]) == i <==> b.newSlots[s] == IdOf(b, i) {
      RankBack(b, h, b.newSlots[s]);
    }
    hide Sound, Rank, IdOf, Size, Entry;
    assert forall s :: s in SlotsOf(Reloaded(b, h), i) <==> s in SlotsOf(b, IdOf(b, i));
  }

  lemma ReloadedEntries(b: Book, h: Hashes)
    requires Sound(b, h)
    ensures EntriesOk(Reloaded(b, h), {})
  {
    var r := Reloaded(b, h);
    forall i | i in r.info ensures EntryOk(r, {}, i) {
      SameSlots(b, h, i);
      assert EntryOk(b, {}, IdOf(b, i));
    }
  }

  lemma ReloadedTables(b: Book, h: Hashes)
    requires Sound(b, h)
    ensures TablesOk(Reloaded(b, h), h)
  {
    SlotIds(b, h);
    var r := Reloaded(b, h);
    forall s | s in r.newSlots ensures FreshSlotOk(r, h, s) {
      assert FreshSlotOk(b, h, s);
      RankBack(b, h, b.newSlots[s]);
    }
    forall s | s in r.triedSlots ensures TriedSlotOk(r, h, s) {
      assert TriedSlotOk(b, h, s);
      RankBack(b, h, b.triedSlots[s]);
    }
    forall i | i in r.info && r.info[i].inTried
      ensures TriedSlot(h, r.info[i]) in r.triedSlots && r.triedSlots[TriedSlot(h, r.info[i])] == i
    {
      IdBack(b, h, i);
      assert b.info[IdOf(b, i)].inTried;
    }
  }

  function Interval(lo: nat, hi: nat): (r: set<int>)
    requires lo <= hi
    ensures |r| == hi - lo && forall i :: i in r <==> lo <= i < hi
    decreases hi
  {
    if lo == hi then {} else Interval(lo, hi - 1) + {hi - 1}
  }

  lemma ReloadedCounts(b: Book, h: Hashes)
    requires Sound(b, h)
    ensures CountsOk(Reloaded(b, h), 0)
  {
    var r := Reloaded(b, h);
    forall i | 0 <= i < Size(b) ensures r.info[i].inTried <==> i >= |News(b)| { IdBack(b, h, i); }
    hide Sound, Rank, IdOf, Entry, Renamed, Interval;
    assert TriedIds(r) == Interval(|News(b)|, Size(b));
    assert UntriedIds(r) == Interval(0, |News(b)|);
  }

  /** The successes of all entries are as Check_ wants them; nLastTry is not stored. */
  ghost predicate SuccessesOk(b: Book) {
    forall id :: id in b.info ==> b.info[id].lastSuccess >= 0 && (b.info[id].inTried ==> b.info[id].lastSuccess != 0)
  }

  lemma ReloadedTimes(b: Book, h: Hashes)
    requires Sound(b, h)
    ensures TimesOk(Reloaded(b, h)) <==> SuccessesOk(b)
  {
    hide Sound, Rank, IdOf, Size, Renamed;
    var r := Reloaded(b, h);
    if TimesOk(r) {
      forall id | id in b.info
        ensures b.info[id].lastSuccess >= 0 && (b.info[id].inTried ==> b.info[id].lastSuccess != 0)
      {
        RankBack(b, h, id);
        assert TimesAt(r, Rank(b, id));
      }
    }
    if SuccessesOk(b) {
      forall i | i in r.info ensures TimesAt(r, i) { IdBack(b, h, i); }
    }
  }

  /**
   The Check() at the end of Unserialize passes if and only if no success was out of order; a wrong
   nLastTry is cured.
   */
  lemma ReloadedPasses(b: Book, h: Hashes)
    requires Consistent(b, h)
    ensures Sound(b, h) && (Passes(Reloaded(b, h), h) <==> SuccessesOk(b))
  {
    hide Consistent, Passes, TimesOk, SuccessesOk, Reloaded, Sound;
    ReloadedConsistent(b, h);
    ReloadedTimes(b, h);
    PassesIffTimes(Reloaded(b, h), h);
  }

  /** The invariant holds again after Unserialize. */
  lemma ReloadedConsistent(b: Book, h: Hashes)
    requires Consistent(b, h)
    ensures Sound(b, h) && Consistent(Reloaded(b, h), h)
  {
    hide RandomOk, IdsOk, EntriesOk, TablesOk, CountsOk, Reloaded;
    SoundBook(b, h);
    ReloadedRandom(b, h);
    ReloadedIds(b, h);
    ReloadedEntries(b, h);
    ReloadedTables(b, h);
    ReloadedCounts(b, h);
  }
}
