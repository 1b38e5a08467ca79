/** The operations of CAddrMan as functions on the address book, and that each keeps the invariant. */
module AddrOps {
  import opened Wrappers
  import opened AddrModel

  const HORIZON_DAYS: int := 30
  const RETRIES: int := 3
  const MAX_FAILURES: int := 10
  const MIN_FAIL_DAYS: int := 7

  /** CAddrInfo::IsTerrible. */
  predicate IsTerrible(x: Info, now: int) {
    if x.lastTry != 0 && x.lastTry >= now - 60 then false
    else
      || x.address.time > now + 10 * 60
      || x.address.time == 0 || now - x.address.time > HORIZON_DAYS * 24 * 60 * 60
      || (x.lastSuccess == 0 && x.attempts >= RETRIES)
      || (now - x.lastSuccess > MIN_FAIL_DAYS * 24 * 60 * 60 && x.attempts >= MAX_FAILURES)
  }

  // ----- ClearNew -----

  ghost function ClearedNew(b: Book, s: Slot): Book {
    if s in b.newSlots && b.newSlots[s] in b.info then
      var id := b.newSlots[s];
      var b1 := Unslotted(b, s);
      if b1.info[id].refCount == 0 && Deletable(b1, id) then Deleted(b1, id) else b1
    else b
  }

  /** Entries other than the one cleared keep all but, perhaps, their place in vRandom. */
  ghost predicate Kept(b: Book, b': Book, id: int) {
    id in b.info ==> id in b'.info && b'.info[id] == b.info[id].(randomPos := b'.info[id].randomPos)
  }

  lemma DeletedKeepsOthers(b: Book, id: int, i: int)
    requires RandomOk(b) && Deletable(b, id) && i != id
    ensures Kept(b, Deleted(b, id), i)
    ensures Deleted(b, id).newSlots == b.newSlots && Deleted(b, id).triedSlots == b.triedSlots
  {
    SwapToEnd(b, id);
    assert PlaceOf(b, id) && IdIn(b, |b.random| - 1);
  }

  /** ClearNew empties the slot, and deletes its entry if that was the last reference. */
  lemma ClearNewKeeps(b: Book, h: Hashes, loose: set<int>, u: int, s: Slot)
    requires Inv(b, h, loose, u) && (s in b.newSlots ==> b.newSlots[s] !in loose)
    ensures Inv(ClearedNew(b, s), h, loose, u)
    ensures ClearedNew(b, s).newSlots == b.newSlots - {s} && ClearedNew(b, s).triedSlots == b.triedSlots
    ensures forall i :: (s in b.newSlots ==> i != b.newSlots[s]) ==> Kept(b, ClearedNew(b, s), i)
  {
    if s in b.newSlots {
      var id := b.newSlots[s];
      UnslotKeeps(b, h, loose, u, s);
      var b1 := Unslotted(b, s);
      if b1.info[id].refCount == 0 {
        DeleteKeeps(b1, h, loose + {id}, u, id);
        assert loose + {id} - {id} == loose;
        forall i | i != id ensures Kept(b, ClearedNew(b, s), i) { DeletedKeepsOthers(b1, id, i); }
        DeletedKeepsOthers(b1, id, id + 1);
      } else {
        Tighten(b1, h, loose + {id}, u, id);
        assert loose + {id} - {id} == loose;
      }
    } else {
      assert b.newSlots - {s} == b.newSlots;
    }
  }

  // ----- MakeTried -----

  /** id gives up all its slots in the new table. */
  ghost function Unreferenced(b: Book, id: int): Book
    requires id in b.info
  {
    b.(newSlots := map s | s in b.newSlots && b.newSlots[s] != id :: b.newSlots[s],
       info := b.info[id := b.info[id].(refCount := 0)],
       nNew := b.nNew - 1)
  }

  /** The tried entry at slot t goes back to the new table, deleting whatever is in its place there. */
  ghost function Readmitted(b: Book, h: Hashes, t: Slot): Book {
    if t in b.triedSlots && b.triedSlots[t] in b.info then
      var id := b.triedSlots[t];
      var b1 := Evicted(b, t);
      var s := HomeSlot(h, b.info[id]);
      var b2 := ClearedNew(b1, s);
      if id in b2.info then Slotted(b2, s, id).(nNew := b2.nNew + 1) else b2
    else b
  }

  ghost function MadeTried(b: Book, h: Hashes, id: int): Book
    requires id in b.info
  {
    var t := TriedSlot(h, b.info[id]);
    var b1 := Readmitted(Unreferenced(b, id), h, t);
    if id in b1.info then Promoted(b1, t, id) else b1
  }

  /** id leaves the new table: it is loose, and nNew does not count it any more. */
  lemma UnreferenceKeeps(b: Book, h: Hashes, id: int)
    requires Inv(b, h, {}, 0) && id in b.info && !b.info[id].inTried
    ensures Inv(Unreferenced(b, id), h, {id}, 1)
  {
    var b' := Unreferenced(b, id);
    assert TriedIds(b') == TriedIds(b);
    assert UntriedIds(b') == UntriedIds(b);
    forall r | r in b'.newSlots ensures FreshSlotOk(b', h, r) { assert FreshSlotOk(b, h, r); }
    forall r | r in b'.triedSlots ensures TriedSlotOk(b', h, r) { assert TriedSlotOk(b, h, r); }
    forall i | i in b'.info ensures EntryOk(b', {id}, i) && IdAt(b', i) {
      assert EntryOk(b, {}, i) && IdAt(b, i);
      assert SlotsOf(b', i) == if i == id then {} else SlotsOf(b, i);
    }
    forall x | x in b'.ids ensures AddressAt(b', x) { assert AddressAt(b, x); }
    SamePlaces(b, b');
  }

  lemma LooseHasNoSlot(b: Book, h: Hashes, loose: set<int>, u: int, id: int)
    requires Inv(b, h, loose, u) && id in b.info && b.info[id].refCount == 0
    ensures forall s :: s in b.newSlots ==> b.newSlots[s] != id
  {
    assert EntryOk(b, loose, id);
    forall s | s in b.newSlots ensures b.newSlots[s] != id { assert s !in SlotsOf(b, id); }
  }

  /** The new-table slot an entry falls back to. */
  function HomeSlot(h: Hashes, x: Info): Slot {
    NewSlot(h, x, h.NewBucket(x.address.service, x.source))
  }

  /**
   While the evicted entry moves, it and the entry that takes its place are in no table.  ClearNew
   can hit neither of them, so both survive.
   */
  lemma ReadmitStages(b: Book, h: Hashes, id: int, t: Slot)
    requires Inv(b, h, {id}, 1) && id in b.info && b.info[id].refCount == 0 && !b.info[id].inTried
    requires t in b.triedSlots
    ensures TriedSlotOk(b, h, t) && b.triedSlots[t] != id
    ensures var e := b.triedSlots[t]; var b1 := Evicted(b, t); var s := HomeSlot(h, b.info[e]);
      Inv(b1, h, {id, e}, 2) && (s in b1.newSlots ==> b1.newSlots[s] !in {id, e})
      && Inv(ClearedNew(b1, s), h, {id, e}, 2) && s !in ClearedNew(b1, s).newSlots
      && Kept(b1, ClearedNew(b1, s), e) && Kept(b1, ClearedNew(b1, s), id)
    ensures var e := b.triedSlots[t]; var b2 := ClearedNew(Evicted(b, t), HomeSlot(h, b.info[e]));
      e in b2.info && b2.info[e].refCount == 0 && !b2.info[e].inTried && b2.info[e].address == b.info[e].address
  {
    var e := b.triedSlots[t];
    EvictKeeps(b, h, {id}, 1, t);
    assert {id} + {e} == {id, e};
    var b1 := Evicted(b, t);
    LooseHasNoSlot(b1, h, {id, e}, 2, id);
    LooseHasNoSlot(b1, h, {id, e}, 2, e);
    ClearNewKeeps(b1, h, {id, e}, 2, HomeSlot(h, b.info[e]));
  }

  lemma ReadmitKeeps(b: Book, h: Hashes, id: int, t: Slot)
    requires Inv(b, h, {id}, 1) && id in b.info && b.info[id].refCount == 0 && !b.info[id].inTried
    ensures Inv(Readmitted(b, h, t), h, {id}, 1) && t !in Readmitted(b, h, t).triedSlots
    ensures Kept(b, Readmitted(b, h, t), id)
  {
    if t in b.triedSlots {
      var e := b.triedSlots[t];
      ReadmitStages(b, h, id, t);
      var s := HomeSlot(h, b.info[e]);
      var b2 := ClearedNew(Evicted(b, t), s);
      ClearNewKeeps(Evicted(b, t), h, {id, e}, 2, s);
      SlotKeeps(b2, h, {id, e}, 2, s, e);
      assert {id, e} - {e} == {id};
      CountOne(Slotted(b2, s, e), h, {id}, 2);
    }
  }

  lemma CountOne(b: Book, h: Hashes, loose: set<int>, u: int)
    requires Inv(b, h, loose, u)
    ensures Inv(b.(nNew := b.nNew + 1), h, loose, u - 1)
  {
    var b' := b.(nNew := b.nNew + 1);
    assert TriedIds(b') == TriedIds(b) && UntriedIds(b') == UntriedIds(b);
    forall r | r in b'.newSlots ensures FreshSlotOk(b', h, r) { assert FreshSlotOk(b, h, r); }
    forall r | r in b'.triedSlots ensures TriedSlotOk(b', h, r) { assert TriedSlotOk(b, h, r); }
    forall i | i in b'.info ensures EntryOk(b', loose, i) && IdAt(b', i) {
      assert EntryOk(b, loose, i) && IdAt(b, i) && SlotsOf(b', i) == SlotsOf(b, i);
    }
    forall x | x in b'.ids ensures AddressAt(b', x) { assert AddressAt(b, x); }
    SamePlaces(b, b');
  }

  lemma MakeTriedKeeps(b: Book, h: Hashes, id: int)
    requires Consistent(b, h) && id in b.info && !b.info[id].inTried
    ensures Consistent(MadeTried(b, h, id), h)
    ensures id in MadeTried(b, h, id).info && MadeTried(b, h, id).info[id].inTried
  {
    var t := TriedSlot(h, b.info[id]);
    UnreferenceKeeps(b, h, id);
    ReadmitKeeps(Unreferenced(b, id), h, id, t);
    var b1 := Readmitted(Unreferenced(b, id), h, t);
    PromoteKeeps(b1, h, {id}, 1, id);
    assert {id} - {id} == {};
  }

  // ----- Good_ -----

  /** The statistics Good_ writes. */
  function Succeeded(x: Info, time: int): Info {
    x.(lastSuccess := time, lastTry := time, attempts := 0)
  }

  ghost function Gooded(b: Book, h: Hashes, x: Service, time: int): Book {
    if x.ip !in b.ids || b.ids[x.ip] !in b.info || b.info[b.ids[x.ip]].address.service != x then b
    else
      var id := b.ids[x.ip];
      var b1 := WithInfo(b, id, Succeeded(b.info[id], time));
      if b.info[id].inTried then b1 else MadeTried(b1, h, id)
  }

  lemma GoodKeeps(b: Book, h: Hashes, x: Service, time: int)
    requires Consistent(b, h)
    ensures Consistent(Gooded(b, h, x, time), h)
  {
    if x.ip in b.ids {
      assert AddressAt(b, x.ip);
      var id := b.ids[x.ip];
      if b.info[id].address.service == x {
        WithInfoKeeps(b, h, {}, 0, id, Succeeded(b.info[id], time));
        if !b.info[id].inTried { MakeTriedKeeps(WithInfo(b, id, Succeeded(b.info[id], time)), h, id); }
      }
    }
  }

  // ----- Add_ -----

  /** What Add_ does first to a known entry: its last-seen time and its services. */
  function Refreshed(x: Info, a: Address, penalty: int, now: int): Info {
    var online := now - a.time < 24 * 60 * 60;
    var interval := if online then 60 * 60 else 24 * 60 * 60;
    var time := if a.time != 0 && (x.address.time == 0 || x.address.time < a.time - interval - penalty)
                then Max(0, a.time - penalty) else x.address.time;
    x.(address := x.address.(time := time, services := x.address.services + a.services))
  }

  /** Whether Add_ goes on to give a known entry one more slot; `lucky` is the stochastic test. */
  predicate GivesSlot(x: Info, a: Address, lucky: bool) {
    && a.time != 0 && !(x.address.time != 0 && a.time <= x.address.time)
    && !x.inTried
    && x.refCount != NEW_BUCKETS_PER_ADDRESS
    && !(x.refCount > 0 && !lucky)
  }

  /** The end of Add_: id gets the slot its source points to, unless a better entry holds it. */
  ghost function Placed(b: Book, h: Hashes, id: int, source: NetAddr, now: int): Book
    requires id in b.info
  {
    var s := NewSlot(h, b.info[id], h.NewBucket(b.info[id].address.service, source));
    if s in b.newSlots && b.newSlots[s] == id then b
    else if s !in b.newSlots || Yields(b, s, id, now) then
      var b1 := ClearedNew(b, s);
      if id in b1.info then Slotted(b1, s, id) else b1
    else if b.info[id].refCount == 0 && Deletable(b, id) then Deleted(b, id)
    else b
  }

  ghost predicate Yields(b: Book, s: Slot, id: int, now: int)
    requires s in b.newSlots && id in b.info
  {
    b.newSlots[s] in b.info &&
    (IsTerrible(b.info[b.newSlots[s]], now) || (b.info[b.newSlots[s]].refCount > 1 && b.info[id].refCount == 0))
  }

  ghost function Added(b: Book, h: Hashes, a: Address, source: NetAddr, penalty: int, now: int, lucky: bool): Book {
    if a.service.ip in b.ids && b.ids[a.service.ip] in b.info then
      var id := b.ids[a.service.ip];
      var b1 := WithInfo(b, id, Refreshed(b.info[id], a, penalty, now));
      if GivesSlot(b1.info[id], a, lucky) then Placed(b1, h, id, source, now) else b1
    else
      Placed(Entered(b, a, source, penalty), h, b.idCount, source, now)
  }

  /** Create, the time penalty, and nNew++. */
  ghost function Entered(b: Book, a: Address, source: NetAddr, penalty: int): (r: Book)
    ensures b.idCount in r.info
  {
    var b1 := Created(b, a, source);
    var x := b1.info[b.idCount];
    WithInfo(b1, b.idCount, x.(address := a.(time := Max(0, a.time - penalty)))).(nNew := b1.nNew + 1)
  }

  lemma PlaceKeeps(b: Book, h: Hashes, id: int, source: NetAddr, now: int, loose: set<int>)
    requires Inv(b, h, loose, 0) && id in b.info && !b.info[id].inTried
    requires b.info[id].refCount < NEW_BUCKETS_PER_ADDRESS
    requires loose == if b.info[id].refCount == 0 then {id} else {}
    ensures Consistent(Placed(b, h, id, source, now), h)
  {
    var s := NewSlot(h, b.info[id], h.NewBucket(b.info[id].address.service, source));
    if s in b.newSlots { assert FreshSlotOk(b, h, s); }
    if b.info[id].refCount == 0 { LooseHasNoSlot(b, h, loose, 0, id); }
    if s in b.newSlots && b.newSlots[s] == id {
    } else if s !in b.newSlots || Yields(b, s, id, now) {
      ClearNewKeeps(b, h, loose, 0, s);
      assert Kept(b, ClearedNew(b, s), id);
      SlotKeeps(ClearedNew(b, s), h, loose, 0, s, id);
      assert loose - {id} == {};
    } else if b.info[id].refCount == 0 {
      DeleteKeeps(b, h, loose, 0, id);
      assert loose - {id} == {};
    }
  }

  lemma AddKeeps(b: Book, h: Hashes, a: Address, source: NetAddr, penalty: int, now: int, lucky: bool)
    requires Consistent(b, h)
    ensures Consistent(Added(b, h, a, source, penalty, now, lucky), h)
  {
    if a.service.ip in b.ids {
      assert AddressAt(b, a.service.ip);
      var id := b.ids[a.service.ip];
      assert EntryOk(b, {}, id);
      var b1 := WithInfo(b, id, Refreshed(b.info[id], a, penalty, now));
      WithInfoKeeps(b, h, {}, 0, id, Refreshed(b.info[id], a, penalty, now));
      if GivesSlot(b1.info[id], a, lucky) {
        PlaceKeeps(b1, h, id, source, now, {});
      }
    } else {
      EnteredInv(b, h, a, source, penalty);
      PlaceKeeps(Entered(b, a, source, penalty), h, b.idCount, source, now, {b.idCount});
    }
  }

  /** An address that is created and finds no slot is deleted again without a trace but the used-up id. */
  lemma CreateThenDelete(b: Book, a: Address, source: NetAddr, penalty: int)
    requires RandomOk(b) && b.idCount !in b.info && a.service.ip !in b.ids
    ensures Deletable(Entered(b, a, source, penalty), b.idCount)
    ensures Deleted(Entered(b, a, source, penalty), b.idCount) == b.(idCount := b.idCount + 1)
  {
    var b1 := Entered(b, a, source, penalty);
    var b2 := Deleted(b1, b.idCount);
    assert b2.random == b.random;
    assert b2.info == b.info;
    assert b2.ids == b.ids;
  }

  /**
   Add_ answers true for every address it did not know.  The address is really in the book
   afterwards if and only if it was known, its slot was free, or the entry in that slot yields.
   */
  lemma AddStores(b: Book, h: Hashes, a: Address, source: NetAddr, penalty: int, now: int, lucky: bool)
    requires Consistent(b, h)
    ensures var s := NewSlot(h, NewInfo(a, source), h.NewBucket(a.service, source));
      a.service.ip in Added(b, h, a, source, penalty, now, lucky).ids <==>
        a.service.ip in b.ids || s !in b.newSlots || Yields(Entered(b, a, source, penalty), s, b.idCount, now)
  {
    AddKeeps(b, h, a, source, penalty, now, lucky);
    var b' := Added(b, h, a, source, penalty, now, lucky);
    var s := NewSlot(h, NewInfo(a, source), h.NewBucket(a.service, source));
    if a.service.ip in b.ids {
      assert AddressAt(b, a.service.ip);
      KnownStays(b, h, a, source, penalty, now, lucky);
    } else {
      CreateKeeps(b, h, {}, 0, a, source);
      var b1 := Entered(b, a, source, penalty);
      if s in b.newSlots { assert FreshSlotOk(b, h, s); }
      if s !in b.newSlots || Yields(b1, s, b.idCount, now) {
        EnteredInv(b, h, a, source, penalty);
        ClearNewKeeps(b1, h, {b.idCount}, 0, s);
        assert Kept(b1, ClearedNew(b1, s), b.idCount) && b.idCount in b'.info;
        assert IdAt(b', b.idCount);
      } else {
        CreateThenDelete(b, a, source, penalty);
      }
    }
  }

  lemma EnteredInv(b: Book, h: Hashes, a: Address, source: NetAddr, penalty: int)
    requires Consistent(b, h) && a.service.ip !in b.ids
    ensures b.idCount !in b.info && Inv(Entered(b, a, source, penalty), h, {b.idCount}, 0)
  {
    CreateKeeps(b, h, {}, 0, a, source);
    var b1 := Created(b, a, source);
    var x := b1.info[b.idCount].(address := a.(time := Max(0, a.time - penalty)));
    WithInfoKeeps(b1, h, {} + {b.idCount}, 1, b.idCount, x);
    CountOne(WithInfo(b1, b.idCount, x), h, {} + {b.idCount}, 1);
    assert {} + {b.idCount} == {b.idCount};
  }

  /** A known address stays known under Add_: ClearNew never hits the entry that is being placed. */
  lemma KnownStays(b: Book, h: Hashes, a: Address, source: NetAddr, penalty: int, now: int, lucky: bool)
    requires Consistent(b, h) && a.service.ip in b.ids
    requires Consistent(Added(b, h, a, source, penalty, now, lucky), h)
    ensures a.service.ip in Added(b, h, a, source, penalty, now, lucky).ids
  {
    assert AddressAt(b, a.service.ip);
    var id := b.ids[a.service.ip];
    var x := Refreshed(b.info[id], a, penalty, now);
    var b1 := WithInfo(b, id, x);
    assert EntryOk(b, {}, id);
    WithInfoKeeps(b, h, {}, 0, id, x);
    var s := NewSlot(h, x, h.NewBucket(x.address.service, source));
    if GivesSlot(x, a, lucky) && !(s in b1.newSlots && b1.newSlots[s] == id) {
      ClearNewKeeps(b1, h, {}, 0, s);
      assert Kept(b1, ClearedNew(b1, s), id);
    }
    assert id in Added(b, h, a, source, penalty, now, lucky).info;
    assert IdAt(Added(b, h, a, source, penalty, now, lucky), id);
  }

  // ----- An address that finds no slot -----

  const ONE_SLOT: Hashes := Hashes(_ => 0, (_, _) => 0, (_, _, _) => 0)
  const HELD: Info := Info(Address(Service(1, 0), {}, 1), 1, 0, 0, 0, 1, false, 0)

  /** One entry, seen a moment ago, in the slot that every address hashes to. */
  const FULL: Book := Book(map[0 := HELD], map[1 := 0], [0], map[], map[(0, 0) := 0], 0, 1, 1)

  lemma FullIsConsistent()
    ensures Consistent(FULL, ONE_SLOT)
  {
    var b := FULL;
    assert SlotsOf(b, 0) == {(0, 0)};
    assert EntryOk(b, {}, 0) && IdAt(b, 0) && PlaceOf(b, 0) && IdIn(b, 0) && AddressAt(b, 1);
    assert FreshSlotOk(b, ONE_SLOT, (0, 0));
    assert TriedIds(b) == {} && UntriedIds(b) == {0};
  }

  /** Add_ answers true for a routable address that it did not know; here it does not keep it all the same. */
  lemma NotEveryNewAddressIsStored()
    ensures exists b: Book, h: Hashes, a: Address, source: NetAddr, now: int ::
      Consistent(b, h) && a.service.ip !in b.ids && a.service.ip !in Added(b, h, a, source, 0, now, true).ids
  {
    hide Added;
    FullIsConsistent();
    var a := Address(Service(2, 0), {}, 1);
    AddStores(FULL, ONE_SLOT, a, 1, 0, 1, true);
    assert !Yields(Entered(FULL, a, 1, 0), (0, 0), 1, 1);
    assert a.service.ip !in Added(FULL, ONE_SLOT, a, 1, 0, 1, true).ids;
  }
}
