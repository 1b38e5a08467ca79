/**
 The address book of CAddrMan as a value (src/addrman.h, src/addrman.cpp): the id map, the address
 map, the random-order vector, the "new" table with its reference counts and the "tried" table.
 */
module AddrModel {
  const TRIED_BUCKET_COUNT: nat := 256
  const NEW_BUCKET_COUNT: nat := 1024
  const BUCKET_SIZE: nat := 64
  const NEW_BUCKETS_PER_ADDRESS: nat := 8

  /** CNetAddr: an address without a port. */
  type NetAddr = nat

  /** CService: an address and a port. */
  datatype Service = Service(ip: NetAddr, port: nat)

  /** CAddress: a service with its service bits and the time it was last seen. */
  datatype Address = Address(service: Service, services: set<nat>, time: int)

  datatype Info = Info(
    address: Address,
    source: NetAddr,
    lastSuccess: int,
    lastTry: int,
    attempts: int,
    refCount: int,
    inTried: bool,
    randomPos: int)
  {
    function Ip(): NetAddr { address.service.ip }
  }

  /** CAddrInfo(addr, source). */
  function NewInfo(a: Address, source: NetAddr): Info {
    Info(a, source, 0, 0, 0, 0, false, -1)
  }

  /** The keyed hashes that pick buckets and positions; nothing is assumed of them. */
  datatype Hashes = Hashes(
    triedHash: Service -> nat,
    newHash: (Service, NetAddr) -> nat,
    positionHash: (Service, bool, nat) -> nat)
  {
    function TriedBucket(x: Service): (b: nat)
      ensures b < TRIED_BUCKET_COUNT
    {
      triedHash(x) % TRIED_BUCKET_COUNT
    }

    function NewBucket(x: Service, source: NetAddr): (b: nat)
      ensures b < NEW_BUCKET_COUNT
    {
      newHash(x, source) % NEW_BUCKET_COUNT
    }

    function Position(x: Service, isNew: bool, bucket: nat): (p: nat)
      ensures p < BUCKET_SIZE
    {
      positionHash(x, isNew, bucket) % BUCKET_SIZE
    }
  }

  /** A bucket and a position in it. */
  type Slot = (nat, nat)

  function NewSlot(h: Hashes, x: Info, bucket: nat): Slot {
    (bucket, h.Position(x.address.service, true, bucket))
  }

  function TriedSlot(h: Hashes, x: Info): Slot {
    var b := h.TriedBucket(x.address.service);
    (b, h.Position(x.address.service, false, b))
  }

  /** Empty slots (-1 in the source) are absent from the two tables. */
  datatype Book = Book(
    info: map<int, Info>,
    ids: map<NetAddr, int>,
    random: seq<int>,
    triedSlots: map<Slot, int>,
    newSlots: map<Slot, int>,
    nTried: int,
    nNew: int,
    idCount: int)

  ghost function TriedIds(b: Book): set<int> {
    set id | id in b.info && b.info[id].inTried
  }

  ghost function UntriedIds(b: Book): set<int> {
    set id | id in b.info && !b.info[id].inTried
  }

  /** The slots of the new table that hold id. */
  ghost function SlotsOf(b: Book, id: int): set<Slot> {
    set s | s in b.newSlots && b.newSlots[s] == id
  }

  // ----- The invariant, part by part -----

  ghost predicate PlaceOf(b: Book, id: int)
    requires id in b.info
  {
    0 <= b.info[id].randomPos < |b.random| && b.random[b.info[id].randomPos] == id
  }

  ghost predicate IdIn(b: Book, i: int)
    requires 0 <= i < |b.random|
  {
    b.random[i] in b.info && b.info[b.random[i]].randomPos == i
  }

  /** vRandom lists every id once, where the id's entry says it does. */
  ghost predicate RandomOk(b: Book) {
    && (forall id {:trigger PlaceOf(b, id)} :: id in b.info ==> PlaceOf(b, id))
    && (forall i {:trigger IdIn(b, i)} :: 0 <= i < |b.random| ==> IdIn(b, i))
  }

  ghost predicate IdAt(b: Book, id: int)
    requires id in b.info
  {
    0 <= id < b.idCount && b.info[id].Ip() in b.ids && b.ids[b.info[id].Ip()] == id
  }

  ghost predicate AddressAt(b: Book, a: NetAddr)
    requires a in b.ids
  {
    b.ids[a] in b.info && b.info[b.ids[a]].Ip() == a
  }

  /** mapAddr maps exactly the known addresses, each to its id. */
  ghost predicate IdsOk(b: Book) {
    && b.idCount >= 0
    && (forall id {:trigger IdAt(b, id)} :: id in b.info ==> IdAt(b, id))
    && (forall a {:trigger AddressAt(b, a)} :: a in b.ids ==> AddressAt(b, a))
  }

  /**
   Each entry by itself.  Entries in `loose` are between tables: they may have lost their last
   reference.
   */
  ghost predicate EntryOk(b: Book, loose: set<int>, id: int)
    requires id in b.info
  {
    var x := b.info[id];
    && x.refCount == |SlotsOf(b, id)| && x.refCount <= NEW_BUCKETS_PER_ADDRESS
    && (if x.inTried then x.refCount == 0 && id !in loose
        else id in loose || x.refCount > 0)
  }

  ghost predicate EntriesOk(b: Book, loose: set<int>) {
    forall id {:trigger EntryOk(b, loose, id)} :: id in b.info ==> EntryOk(b, loose, id)
  }

  ghost predicate FreshSlotOk(b: Book, h: Hashes, s: Slot)
    requires s in b.newSlots
  {
    var id := b.newSlots[s];
    s.0 < NEW_BUCKET_COUNT && id in b.info && !b.info[id].inTried && s == NewSlot(h, b.info[id], s.0)
  }

  ghost predicate TriedSlotOk(b: Book, h: Hashes, s: Slot)
    requires s in b.triedSlots
  {
    var id := b.triedSlots[s];
    id in b.info && b.info[id].inTried && s == TriedSlot(h, b.info[id])
  }

  ghost predicate TablesOk(b: Book, h: Hashes) {
    && (forall s {:trigger FreshSlotOk(b, h, s)} :: s in b.newSlots ==> FreshSlotOk(b, h, s))
    && (forall s {:trigger TriedSlotOk(b, h, s)} :: s in b.triedSlots ==> TriedSlotOk(b, h, s))
    && (forall id {:trigger b.info[id].inTried} :: id in b.info && b.info[id].inTried ==>
          TriedSlot(h, b.info[id]) in b.triedSlots && b.triedSlots[TriedSlot(h, b.info[id])] == id)
  }

  /** nTried and nNew; `uncounted` entries outside tried are not in nNew at the moment. */
  ghost predicate CountsOk(b: Book, uncounted: int) {
    b.nTried == |TriedIds(b)| && b.nNew + uncounted == |UntriedIds(b)|
  }

  ghost predicate Inv(b: Book, h: Hashes, loose: set<int>, uncounted: int) {
    RandomOk(b) && IdsOk(b) && EntriesOk(b, loose) && TablesOk(b, h) && CountsOk(b, uncounted) && loose <= b.info.Keys
  }

  ghost predicate Consistent(b: Book, h: Hashes) {
    Inv(b, h, {}, 0)
  }

  /** What Check_ expects of the times: none negative, and a success of every tried entry. */
  ghost predicate TimesAt(b: Book, id: int)
    requires id in b.info
  {
    b.info[id].lastTry >= 0 && b.info[id].lastSuccess >= 0 && (b.info[id].inTried ==> b.info[id].lastSuccess != 0)
  }

  ghost predicate TimesOk(b: Book) {
    forall id {:trigger TimesAt(b, id)} :: id in b.info ==> TimesAt(b, id)
  }

  // ----- Elementary changes -----

  /** An entry's fields are updated. */
  function WithInfo(b: Book, id: int, x: Info): Book {
    b.(info := b.info[id := x])
  }

  ghost predicate Swappable(b: Book, p: int, q: int) {
    0 <= p < |b.random| && 0 <= q < |b.random| && b.random[p] in b.info && b.random[q] in b.info
  }

  function Swapped(b: Book, p: int, q: int): Book
    requires Swappable(b, p, q)
  {
    if p == q then b else
      var i, j := b.random[p], b.random[q];
      var info1 := b.info[i := b.info[i].(randomPos := q)];
      b.(info := info1[j := info1[j].(randomPos := p)], random := b.random[p := j][q := i])
  }

  function Created(b: Book, a: Address, source: NetAddr): Book {
    b.(info := b.info[b.idCount := NewInfo(a, source).(randomPos := |b.random|)],
       ids := b.ids[a.service.ip := b.idCount],
       random := b.random + [b.idCount],
       idCount := b.idCount + 1)
  }

  /** The last id of vRandom drops out, with its entry. */
  function Dropped(b: Book, id: int): Book
    requires |b.random| > 0 && id in b.info
  {
    b.(info := b.info - {id}, ids := b.ids - {b.info[id].Ip()}, random := b.random[..|b.random| - 1],
       nNew := b.nNew - 1)
  }

  ghost predicate Deletable(b: Book, id: int) {
    id in b.info && |b.random| > 0 && Swappable(b, b.info[id].randomPos, |b.random| - 1)
  }

  function Deleted(b: Book, id: int): Book
    requires Deletable(b, id)
  {
    Dropped(Swapped(b, b.info[id].randomPos, |b.random| - 1), id)
  }

  /** A slot of the new table is emptied and its reference given back. */
  function Unslotted(b: Book, s: Slot): Book
    requires s in b.newSlots && b.newSlots[s] in b.info
  {
    var id := b.newSlots[s];
    b.(newSlots := b.newSlots - {s}, info := b.info[id := b.info[id].(refCount := b.info[id].refCount - 1)])
  }

  /** An empty slot of the new table is given to id. */
  function Slotted(b: Book, s: Slot, id: int): Book
    requires id in b.info
  {
    b.(newSlots := b.newSlots[s := id], info := b.info[id := b.info[id].(refCount := b.info[id].refCount + 1)])
  }

  // ----- What the elementary changes keep -----

  ghost predicate SameEntry(x: Info, y: Info) {
    x.address.service == y.address.service && x.refCount == y.refCount && x.inTried == y.inTried
  }

  /** b' differs from b in the statistics and random positions of entries at most. */
  ghost predicate SameTables(b: Book, b': Book) {
    && b'.newSlots == b.newSlots && b'.triedSlots == b.triedSlots && b'.ids == b.ids && b'.idCount == b.idCount
    && b'.nTried == b.nTried && b'.nNew == b.nNew && b'.info.Keys == b.info.Keys
    && forall id :: id in b.info ==> SameEntry(b.info[id], b'.info[id])
  }

  lemma SameTablesKeep(b: Book, b': Book, h: Hashes, loose: set<int>, u: int)
    requires Inv(b, h, loose, u) && SameTables(b, b') && RandomOk(b')
    ensures Inv(b', h, loose, u)
  {
    forall i | i in b.info ensures SameEntry(b.info[i], b'.info[i]) {}
    assert TriedIds(b') == TriedIds(b);
    assert UntriedIds(b') == UntriedIds(b);
    forall i | i in b'.info ensures EntryOk(b', loose, i) && IdAt(b', i) {
      assert EntryOk(b, loose, i) && SlotsOf(b', i) == SlotsOf(b, i) && IdAt(b, i);
    }
    forall a | a in b'.ids ensures AddressAt(b', a) {
      assert AddressAt(b, a) && SameEntry(b.info[b.ids[a]], b'.info[b.ids[a]]);
    }
    forall s | s in b'.newSlots ensures FreshSlotOk(b', h, s) { assert FreshSlotOk(b, h, s); }
    forall s | s in b'.triedSlots ensures TriedSlotOk(b', h, s) { assert TriedSlotOk(b, h, s); }
  }

  /** The statistics of an entry may be updated. */
  lemma WithInfoKeeps(b: Book, h: Hashes, loose: set<int>, u: int, id: int, x: Info)
    requires Inv(b, h, loose, u) && id in b.info
    requires SameEntry(x, b.info[id]) && x.randomPos == b.info[id].randomPos
    ensures Inv(WithInfo(b, id, x), h, loose, u)
  {
    var b' := WithInfo(b, id, x);
    forall i | i in b'.info ensures PlaceOf(b', i) { assert PlaceOf(b, i); }
    forall i | 0 <= i < |b'.random| ensures IdIn(b', i) { assert IdIn(b, i); }
    SameTablesKeep(b, b', h, loose, u);
  }

  /** SwapRandom: the asserts of the source hold, and only positions change. */
  lemma SwapRandomOk(b: Book, p: int, q: int)
    requires RandomOk(b) && 0 <= p < |b.random| && 0 <= q < |b.random|
    ensures Swappable(b, p, q) && RandomOk(Swapped(b, p, q)) && SameTables(b, Swapped(b, p, q))
    ensures forall id :: id in b.info ==>
      Swapped(b, p, q).info[id] == b.info[id].(randomPos := Swapped(b, p, q).info[id].randomPos)
  {
    assert IdIn(b, p) && IdIn(b, q);
    var b' := Swapped(b, p, q);
    forall i | i in b'.info ensures PlaceOf(b', i) { assert PlaceOf(b, i); }
    forall i | 0 <= i < |b'.random| ensures IdIn(b', i) { assert IdIn(b, i); }
  }

  lemma SwapKeeps(b: Book, h: Hashes, loose: set<int>, u: int, p: int, q: int)
    requires Inv(b, h, loose, u) && 0 <= p < |b.random| && 0 <= q < |b.random|
    ensures Swappable(b, p, q) && Inv(Swapped(b, p, q), h, loose, u)
  {
    SwapRandomOk(b, p, q);
    SameTablesKeep(b, Swapped(b, p, q), h, loose, u);
  }

  lemma CreateRandomOk(b: Book, a: Address, source: NetAddr)
    requires RandomOk(b) && b.idCount !in b.info
    ensures RandomOk(Created(b, a, source))
  {
    var b' := Created(b, a, source);
    forall i | i in b'.info ensures PlaceOf(b', i) { assert i in b.info ==> PlaceOf(b, i); }
    forall i | 0 <= i < |b'.random| ensures IdIn(b', i) { assert i < |b.random| ==> IdIn(b, i); }
  }

  lemma CreateTables(b: Book, h: Hashes, a: Address, source: NetAddr)
    requires TablesOk(b, h) && b.idCount !in b.info
    ensures TablesOk(Created(b, a, source), h) && SlotsOf(Created(b, a, source), b.idCount) == {}
  {
    var b' := Created(b, a, source);
    forall s | s in b'.newSlots ensures FreshSlotOk(b', h, s) && b'.newSlots[s] != b.idCount {
      assert FreshSlotOk(b, h, s);
    }
    forall s | s in b'.triedSlots ensures TriedSlotOk(b', h, s) { assert TriedSlotOk(b, h, s); }
  }

  lemma CreateIds(b: Book, a: Address, source: NetAddr)
    requires IdsOk(b) && a.service.ip !in b.ids
    ensures IdsOk(Created(b, a, source))
  {
    var b' := Created(b, a, source);
    assert b.idCount in b.info ==> IdAt(b, b.idCount);
    forall i | i in b'.info ensures IdAt(b', i) { if i != b.idCount { assert IdAt(b, i); } }
    forall x | x in b'.ids ensures AddressAt(b', x) { if x in b.ids { assert AddressAt(b, x); } }
  }

  /** A new entry is loose: it has no reference yet.  nNew does not count it yet. */
  lemma CreateKeeps(b: Book, h: Hashes, loose: set<int>, u: int, a: Address, source: NetAddr)
    requires Inv(b, h, loose, u) && a.service.ip !in b.ids
    ensures b.idCount !in b.info && Inv(Created(b, a, source), h, loose + {b.idCount}, u + 1)
  {
    var id := b.idCount;
    var b' := Created(b, a, source);
    assert id in b.info ==> IdAt(b, id);
    CreateRandomOk(b, a, source);
    CreateTables(b, h, a, source);
    CreateIds(b, a, source);
    CreateCounts(b, u, a, source);
    forall i | i in b'.info ensures EntryOk(b', loose + {id}, i) {
      CreateEntry(b, h, loose, u, a, source, i);
    }
  }

  lemma CreateCounts(b: Book, u: int, a: Address, source: NetAddr)
    requires CountsOk(b, u) && b.idCount !in b.info
    ensures CountsOk(Created(b, a, source), u + 1)
  {
    var b' := Created(b, a, source);
    assert TriedIds(b') == TriedIds(b);
    assert UntriedIds(b') == UntriedIds(b) + {b.idCount};
  }

  lemma CreateEntry(b: Book, h: Hashes, loose: set<int>, u: int, a: Address, source: NetAddr, i: int)
    requires Inv(b, h, loose, u) && b.idCount !in b.info && i in Created(b, a, source).info
    ensures EntryOk(Created(b, a, source), loose + {b.idCount}, i)
  {
    hide IdsOk, RandomOk, CountsOk;
    var b' := Created(b, a, source);
    if i != b.idCount {
      assert EntryOk(b, loose, i) && SlotsOf(b', i) == SlotsOf(b, i);
    } else {
      forall s | s in b.newSlots ensures b.newSlots[s] != i { assert FreshSlotOk(b, h, s); }
      assert SlotsOf(b', i) == {};
    }
  }

  /** SwapRandom brings the entry to be deleted to the end of vRandom. */
  lemma SwapToEnd(b: Book, id: int)
    requires RandomOk(b) && id in b.info
    ensures Deletable(b, id)
    ensures var b' := Swapped(b, b.info[id].randomPos, |b.random| - 1);
      b'.info.Keys == b.info.Keys && |b'.random| == |b.random| &&
      b'.info[id] == b.info[id].(randomPos := |b.random| - 1)
  {
    assert PlaceOf(b, id) && IdIn(b, |b.random| - 1);
  }

  /** Delete: the asserts of the source (known, not in tried, no reference) are its precondition. */
  lemma DeleteKeeps(b: Book, h: Hashes, loose: set<int>, u: int, id: int)
    requires Inv(b, h, loose, u) && id in b.info && !b.info[id].inTried && b.info[id].refCount == 0
    ensures Deletable(b, id) && Inv(Deleted(b, id), h, loose - {id}, u)
  {
    SwapToEnd(b, id);
    assert PlaceOf(b, id);
    SwapKeeps(b, h, loose, u, b.info[id].randomPos, |b.random| - 1);
    DropKeeps(Swapped(b, b.info[id].randomPos, |b.random| - 1), h, loose, u, id);
  }

  lemma DropRandomOk(b: Book, id: int)
    requires RandomOk(b) && id in b.info && |b.random| > 0 && b.info[id].randomPos == |b.random| - 1
    ensures RandomOk(Dropped(b, id))
  {
    var b' := Dropped(b, id);
    assert PlaceOf(b, id);
    forall i | i in b'.info ensures PlaceOf(b', i) { assert PlaceOf(b, i); }
    forall i | 0 <= i < |b'.random| ensures IdIn(b', i) { assert IdIn(b, i); }
  }

  lemma DropKeeps(b: Book, h: Hashes, loose: set<int>, u: int, id: int)
    requires Inv(b, h, loose, u) && id in b.info && !b.info[id].inTried && b.info[id].refCount == 0
    requires |b.random| > 0 && b.info[id].randomPos == |b.random| - 1
    ensures Inv(Dropped(b, id), h, loose - {id}, u)
  {
    var b' := Dropped(b, id);
    DropRandomOk(b, id);
    assert EntryOk(b, loose, id) && IdAt(b, id);
    assert SlotsOf(b, id) == {};
    assert TriedIds(b') == TriedIds(b) && UntriedIds(b') == UntriedIds(b) - {id};
    forall s | s in b'.newSlots ensures FreshSlotOk(b', h, s) { assert FreshSlotOk(b, h, s) && s !in SlotsOf(b, id); }
    forall s | s in b'.triedSlots ensures TriedSlotOk(b', h, s) { assert TriedSlotOk(b, h, s); }
    forall i | i in b'.info ensures EntryOk(b', loose - {id}, i) && IdAt(b', i) {
      assert EntryOk(b, loose, i) && SlotsOf(b', i) == SlotsOf(b, i) && IdAt(b, i);
    }
    forall x | x in b'.ids ensures AddressAt(b', x) { assert AddressAt(b, x); }
  }

  lemma SamePlaces(b: Book, b': Book)
    requires RandomOk(b) && b'.random == b.random && b'.info.Keys == b.info.Keys
    requires forall id :: id in b.info ==> b'.info[id].randomPos == b.info[id].randomPos
    ensures RandomOk(b')
  {
    forall i | i in b'.info ensures PlaceOf(b', i) { assert PlaceOf(b, i); }
    forall i | 0 <= i < |b'.random| ensures IdIn(b', i) {
      assert IdIn(b, i);
      var x := b.random[i];
      assert x in b.info && b.info[x].randomPos == i;
    }
  }

  lemma UnslotKeeps(b: Book, h: Hashes, loose: set<int>, u: int, s: Slot)
    requires Inv(b, h, loose, u) && s in b.newSlots
    ensures FreshSlotOk(b, h, s) && b.info[b.newSlots[s]].refCount > 0
    ensures Inv(Unslotted(b, s), h, loose + {b.newSlots[s]}, u)
  {
    var id := b.newSlots[s];
    assert FreshSlotOk(b, h, s) && EntryOk(b, loose, id) && s in SlotsOf(b, id);
    var b' := Unslotted(b, s);
    assert TriedIds(b') == TriedIds(b) && UntriedIds(b') == UntriedIds(b);
    forall r | r in b'.newSlots ensures FreshSlotOk(b', h, r) { assert FreshSlotOk(b, h, r); }
    forall r | r in b'.triedSlots ensures TriedSlotOk(b', h, r) { assert TriedSlotOk(b, h, r); }
    forall i | i in b'.info ensures EntryOk(b', loose + {id}, i) && IdAt(b', i) {
      assert EntryOk(b, loose, i) && IdAt(b, i);
      assert SlotsOf(b', i) == if i == id then SlotsOf(b, i) - {s} else SlotsOf(b, i);
    }
    forall x | x in b'.ids ensures AddressAt(b', x) { assert AddressAt(b, x); }
    SamePlaces(b, b');
  }

  lemma SlotEntry(b: Book, loose: set<int>, s: Slot, id: int, i: int)
    requires id in b.info && !b.info[id].inTried && s !in b.newSlots && b.info[id].refCount < NEW_BUCKETS_PER_ADDRESS
    requires i in b.info && EntryOk(b, loose, i) && IdAt(b, i)
    ensures EntryOk(Slotted(b, s, id), loose - {id}, i) && IdAt(Slotted(b, s, id), i)
  {
    assert SlotsOf(Slotted(b, s, id), i) == if i == id then SlotsOf(b, i) + {s} else SlotsOf(b, i);
  }

  lemma SlotKeeps(b: Book, h: Hashes, loose: set<int>, u: int, s: Slot, id: int)
    requires Inv(b, h, loose, u) && s !in b.newSlots && id in b.info && !b.info[id].inTried
    requires s.0 < NEW_BUCKET_COUNT && s == NewSlot(h, b.info[id], s.0)
    requires b.info[id].refCount < NEW_BUCKETS_PER_ADDRESS
    ensures Inv(Slotted(b, s, id), h, loose - {id}, u)
  {
    var b' := Slotted(b, s, id);
    assert TriedIds(b') == TriedIds(b);
    assert UntriedIds(b') == UntriedIds(b);
    forall r | r in b'.newSlots ensures FreshSlotOk(b', h, r) { if r != s { assert FreshSlotOk(b, h, r); } }
    forall r | r in b'.triedSlots ensures TriedSlotOk(b', h, r) { assert TriedSlotOk(b, h, r); }
    forall i | i in b'.info ensures EntryOk(b', loose - {id}, i) && IdAt(b', i) {
      assert EntryOk(b, loose, i) && IdAt(b, i);
      SlotEntry(b, loose, s, id, i);
    }
    forall x | x in b'.ids ensures AddressAt(b', x) { assert AddressAt(b, x); }
    SamePlaces(b, b');
  }

  /** An entry leaves `loose` once it has a reference. */
  lemma Tighten(b: Book, h: Hashes, loose: set<int>, u: int, id: int)
    requires Inv(b, h, loose, u) && (id in b.info ==> b.info[id].refCount > 0)
    ensures Inv(b, h, loose - {id}, u)
  {
    forall i | i in b.info ensures EntryOk(b, loose - {id}, i) { assert EntryOk(b, loose, i); }
  }

  // ----- Leaving and entering the tried table -----

  /** A tried entry is taken out of its slot; it is in no table until it is slotted again. */
  function Evicted(b: Book, s: Slot): Book
    requires s in b.triedSlots && b.triedSlots[s] in b.info
  {
    var id := b.triedSlots[s];
    b.(triedSlots := b.triedSlots - {s}, info := b.info[id := b.info[id].(inTried := false)], nTried := b.nTried - 1)
  }

  lemma EvictKeeps(b: Book, h: Hashes, loose: set<int>, u: int, s: Slot)
    requires Inv(b, h, loose, u) && s in b.triedSlots
    ensures TriedSlotOk(b, h, s) && b.info[b.triedSlots[s]].refCount == 0 && b.triedSlots[s] !in loose
    ensures Inv(Evicted(b, s), h, loose + {b.triedSlots[s]}, u + 1)
  {
    var id := b.triedSlots[s];
    assert TriedSlotOk(b, h, s) && EntryOk(b, loose, id);
    var b' := Evicted(b, s);
    assert TriedIds(b') == TriedIds(b) - {id} && UntriedIds(b') == UntriedIds(b) + {id};
    forall r | r in b'.newSlots ensures FreshSlotOk(b', h, r) { assert FreshSlotOk(b, h, r); }
    forall r | r in b'.triedSlots ensures TriedSlotOk(b', h, r) { assert TriedSlotOk(b, h, r); }
    forall i | i in b'.info ensures EntryOk(b', loose + {id}, i) && IdAt(b', i) {
      assert EntryOk(b, loose, i) && IdAt(b, i) && SlotsOf(b', i) == SlotsOf(b, i);
    }
    forall x | x in b'.ids ensures AddressAt(b', x) { assert AddressAt(b, x); }
    SamePlaces(b, b');
  }

  function Promoted(b: Book, s: Slot, id: int): Book
    requires id in b.info
  {
    b.(triedSlots := b.triedSlots[s := id], info := b.info[id := b.info[id].(inTried := true)], nTried := b.nTried + 1)
  }

  lemma PromoteEntry(b: Book, loose: set<int>, s: Slot, id: int, i: int)
    requires id in b.info && b.info[id].refCount == 0
    requires i in b.info && EntryOk(b, loose, i) && IdAt(b, i)
    ensures EntryOk(Promoted(b, s, id), loose - {id}, i) && IdAt(Promoted(b, s, id), i)
  {
    assert SlotsOf(Promoted(b, s, id), i) == SlotsOf(b, i);
  }

  lemma PromoteTables(b: Book, h: Hashes, id: int)
    requires TablesOk(b, h) && id in b.info && !b.info[id].inTried && SlotsOf(b, id) == {}
    requires TriedSlot(h, b.info[id]) !in b.triedSlots
    ensures TablesOk(Promoted(b, TriedSlot(h, b.info[id]), id), h)
  {
    var s := TriedSlot(h, b.info[id]);
    var b' := Promoted(b, s, id);
    forall r | r in b'.newSlots ensures FreshSlotOk(b', h, r) { assert FreshSlotOk(b, h, r) && r !in SlotsOf(b, id); }
    forall r | r in b'.triedSlots ensures TriedSlotOk(b', h, r) { if r != s { assert TriedSlotOk(b, h, r); } }
  }

  lemma PromoteCounts(b: Book, u: int, s: Slot, id: int)
    requires CountsOk(b, u) && id in b.info && !b.info[id].inTried
    ensures CountsOk(Promoted(b, s, id), u - 1)
  {
    var b' := Promoted(b, s, id);
    assert TriedIds(b') == TriedIds(b) + {id};
    assert UntriedIds(b') == UntriedIds(b) - {id};
  }

  lemma PromoteKeeps(b: Book, h: Hashes, loose: set<int>, u: int, id: int)
    requires Inv(b, h, loose, u) && id in b.info && !b.info[id].inTried && b.info[id].refCount == 0
    requires TriedSlot(h, b.info[id]) !in b.triedSlots
    ensures Inv(Promoted(b, TriedSlot(h, b.info[id]), id), h, loose - {id}, u - 1)
  {
    var s := TriedSlot(h, b.info[id]);
    var b' := Promoted(b, s, id);
    assert EntryOk(b, loose, id);
    assert SlotsOf(b, id) == {};
    PromoteCounts(b, u, s, id);
    PromoteTables(b, h, id);
    forall i | i in b'.info ensures EntryOk(b', loose - {id}, i) && IdAt(b', i) {
      assert EntryOk(b, loose, i) && IdAt(b, i);
      PromoteEntry(b, loose, s, id, i);
    }
    forall x | x in b'.ids ensures AddressAt(b', x) { assert AddressAt(b, x); }
    SamePlaces(b, b');
  }
}
