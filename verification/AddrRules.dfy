/**
 What Add_ and Good_ do to a consistent address book, entry by entry and slot by slot, with the numbers
 written out (src/addrman.h, src/addrman.cpp).
 */
module AddrRules {
  import opened AddrModel
  import opened AddrOps

  /**
   Not tried in the last minute, and: from more than ten minutes ahead, of no time, or not seen for thirty
   days; three attempts and never a success; or ten attempts and no success for a week.
   */
  predicate Hopeless(x: Info, now: int) {
    && (x.lastTry == 0 || now - x.lastTry > 60)
    && (|| x.address.time - now > 600
        || x.address.time == 0
        || now - x.address.time > 2592000
        || (x.attempts >= 3 && x.lastSuccess == 0)
        || (x.attempts >= 10 && now - x.lastSuccess > 604800))
  }

  lemma TerribleIsHopeless(x: Info, now: int)
    ensures IsTerrible(x, now) <==> Hopeless(x, now)
  {
  }

  /** The slot of the new table for a service heard of from source. */
  function NewPlace(h: Hashes, x: Service, source: NetAddr): Slot {
    var bucket := h.newHash(x, source) % 1024;
    (bucket, h.positionHash(x, true, bucket) % 64)
  }

  function TriedPlace(h: Hashes, x: Service): Slot {
    var bucket := h.triedHash(x) % 256;
    (bucket, h.positionHash(x, false, bucket) % 64)
  }

  lemma Places(h: Hashes, x: Info, source: NetAddr)
    ensures NewSlot(h, x, h.NewBucket(x.address.service, source)) == NewPlace(h, x.address.service, source)
    ensures HomeSlot(h, x) == NewPlace(h, x.address.service, x.source)
    ensures TriedSlot(h, x) == TriedPlace(h, x.address.service)
  {
  }

  /**
   The last-seen time of a known entry: the time told less the penalty, if there is one and the entry has
   none, or one that is older by more than the penalty and an hour; a day, if the time told is a day old.
   */
  function SeenTime(was: int, told: int, penalty: int, now: int): int {
    if told != 0 && (was == 0 || told - was - penalty > if now - told >= 86400 then 86400 else 3600)
    then if told < penalty then 0 else told - penalty
    else was
  }

  /** Another entry keeps all but its random position; the holder of s loses a reference, or goes with its last. */
  ghost predicate Bystander(b: Book, b': Book, s: Slot, i: int)
    requires i in b.info
  {
    var hit := s in b.newSlots && b.newSlots[s] == i;
    if hit && b.info[i].refCount == 1 then i !in b'.info
    else
      i in b'.info &&
      b'.info[i] == b.info[i].(randomPos := b'.info[i].randomPos, refCount := b.info[i].refCount - if hit then 1 else 0)
  }

  /** id has taken slot s of the new table, from whoever held it. */
  ghost predicate Took(b: Book, b': Book, s: Slot, id: int) {
    && b'.newSlots == b.newSlots[s := id] && b'.triedSlots == b.triedSlots && b'.idCount == b.idCount
    && b'.info.Keys <= b.info.Keys
    && forall i {:trigger Bystander(b, b', s, i)} :: i in b.info && i != id ==> Bystander(b, b', s, i)
  }

  lemma ClearedBystander(b: Book, h: Hashes, loose: set<int>, u: int, s: Slot, i: int)
    requires Inv(b, h, loose, u) && (s in b.newSlots ==> b.newSlots[s] !in loose) && i in b.info
    ensures Bystander(b, ClearedNew(b, s), s, i)
  {
    hide Inv, Unslotted, Deleted, Deletable;
    if s in b.newSlots && b.newSlots[s] == i {
      ClearedHolder(b, h, loose, u, s);
    } else {
      ClearNewKeeps(b, h, loose, u, s);
      assert Kept(b, ClearedNew(b, s), i);
    }
  }

  lemma ClearedHolder(b: Book, h: Hashes, loose: set<int>, u: int, s: Slot)
    requires Inv(b, h, loose, u) && s in b.newSlots && b.newSlots[s] !in loose && b.newSlots[s] in b.info
    ensures Bystander(b, ClearedNew(b, s), s, b.newSlots[s])
  {
    var id := b.newSlots[s];
    UnslotKeeps(b, h, loose, u, s);
    if b.info[id].refCount == 1 { DeleteKeeps(Unslotted(b, s), h, loose + {id}, u, id); }
  }

  lemma ClearedKeys(b: Book, s: Slot)
    ensures ClearedNew(b, s).info.Keys <= b.info.Keys && ClearedNew(b, s).idCount == b.idCount
  {
  }

  /** The end of Add_ and the way back of an evicted entry. */
  lemma TakesSlot(b: Book, h: Hashes, loose: set<int>, u: int, s: Slot, id: int)
    requires Inv(b, h, loose, u) && id in b.info && (s in b.newSlots ==> b.newSlots[s] !in loose && b.newSlots[s] != id)
    ensures var b1 := ClearedNew(b, s);
      && id in b1.info && Took(b, Slotted(b1, s, id), s, id)
      && Slotted(b1, s, id).info[id] ==
           b.info[id].(refCount := b.info[id].refCount + 1, randomPos := b1.info[id].randomPos)
  {
    hide Inv, ClearedNew;
    var b1 := ClearedNew(b, s);
    ClearNewKeeps(b, h, loose, u, s);
    ClearedKeys(b, s);
    assert Kept(b, b1, id);
    var b' := Slotted(b1, s, id);
    forall i | i in b.info && i != id ensures Bystander(b, b', s, i) {
      ClearedBystander(b, h, loose, u, s, i);
    }
    assert (b.newSlots - {s})[s := id] == b.newSlots[s := id];
  }

  predicate Gone(b: Book, i: int, now: int) {
    i in b.info && Hopeless(b.info[i], now)
  }

  /** The entry has other references. */
  predicate Spare(b: Book, i: int) {
    i in b.info && b.info[i].refCount > 1
  }

  /** Whether id gets the slot that its source points to. */
  ghost predicate Gets(b: Book, s: Slot, id: int, now: int)
    requires id in b.info
  {
    || s !in b.newSlots
    || (b.newSlots[s] != id && (Gone(b, b.newSlots[s], now) || (Spare(b, b.newSlots[s]) && b.info[id].refCount == 0)))
  }

  lemma PlacedRule(b: Book, h: Hashes, id: int, source: NetAddr, now: int, loose: set<int>)
    requires Inv(b, h, loose, 0) && id in b.info && (b.info[id].refCount == 0 ==> id in loose) && loose <= {id}
    ensures var s := NewPlace(h, b.info[id].address.service, source); var b' := Placed(b, h, id, source, now);
      if Gets(b, s, id, now) then
        && id in b'.info && Took(b, b', s, id)
        && b'.info[id] == b.info[id].(refCount := b.info[id].refCount + 1, randomPos := b'.info[id].randomPos)
      else if b.info[id].refCount == 0 && Deletable(b, id) then b' == Deleted(b, id)
      else b' == b
  {
    hide Inv, Took, ClearedNew, Deletable, Deleted, IsTerrible, Hopeless;
    var s := NewPlace(h, b.info[id].address.service, source);
    Places(h, b.info[id], source);
    if b.info[id].refCount == 0 { LooseHasNoSlot(b, h, loose, 0, id); }
    if s in b.newSlots {
      HolderKnown(b, h, loose, s);
      TerribleIsHopeless(b.info[b.newSlots[s]], now);
    }
    if Gets(b, s, id, now) { TakesSlot(b, h, loose, 0, s, id); }
  }

  lemma HolderKnown(b: Book, h: Hashes, loose: set<int>, s: Slot)
    requires Inv(b, h, loose, 0) && s in b.newSlots
    ensures b.newSlots[s] in b.info
  {
    assert FreshSlotOk(b, h, s);
  }

  // ----- Add_ -----

  /** Of a known address only the time and the services of its entry change, and perhaps it gets one more slot. */
  ghost predicate AddsKnown(b: Book, b': Book, h: Hashes, id: int, a: Address, source: NetAddr, penalty: int, now: int,
                            lucky: bool)
    requires id in b.info
  {
    var y := b.info[id];
    var t := SeenTime(y.address.time, a.time, penalty, now);
    var s := NewPlace(h, y.address.service, source);
    var got := && a.time != 0 && (t == 0 || t < a.time) && !y.inTried && y.refCount < 8 && lucky
               && (s !in b.newSlots || (b.newSlots[s] != id && Gone(b, b.newSlots[s], now)));
    && id in b'.info
    && b'.info[id] == y.(address := y.address.(time := t, services := y.address.services + a.services),
                         refCount := y.refCount + (if got then 1 else 0), randomPos := b'.info[id].randomPos)
    && if got then Took(b, b', s, id) else b' == b.(info := b.info[id := b'.info[id]])
  }

  /** An unknown one is entered under the next id, or leaves no trace but the used-up id. */
  ghost predicate AddsNew(b: Book, b': Book, h: Hashes, a: Address, source: NetAddr, penalty: int, now: int) {
    var s := NewPlace(h, a.service, source);
    var got := s !in b.newSlots || Gone(b, b.newSlots[s], now) || Spare(b, b.newSlots[s]);
    if got then
      && b.idCount in b'.info && Took(b.(idCount := b'.idCount, info := b.info[b.idCount := b'.info[b.idCount]]), b', s,
                                      b.idCount)
      && b'.info[b.idCount] == Info(a.(time := if a.time < penalty then 0 else a.time - penalty), source, 0, 0, 0, 1,
                                    false, b'.info[b.idCount].randomPos)
      && b'.idCount == b.idCount + 1
    else b' == b.(idCount := b.idCount + 1)
  }

  lemma AddKnown(b: Book, h: Hashes, a: Address, source: NetAddr, penalty: int, now: int, lucky: bool)
    requires Consistent(b, h) && a.service.ip in b.ids
    ensures b.ids[a.service.ip] in b.info
    ensures AddsKnown(b, Added(b, h, a, source, penalty, now, lucky), h, b.ids[a.service.ip], a, source, penalty, now,
                      lucky)
  {
    hide Placed, Took, IdsOk, TablesOk, RandomOk, CountsOk, Hopeless;
    assert AddressAt(b, a.service.ip) by { KnownEntry(b, h, a.service.ip); }
    var id := b.ids[a.service.ip];
    var x := Refreshed(b.info[id], a, penalty, now);
    var b1 := WithInfo(b, id, x);
    assert EntryOk(b, {}, id);
    WithInfoKeeps(b, h, {}, 0, id, x);
    if GivesSlot(x, a, lucky) {
      PlacedRule(b1, h, id, source, now, {});
      var s := NewPlace(h, x.address.service, source);
      if Gets(b1, s, id, now) { TookFromBefore(b, b1, Added(b, h, a, source, penalty, now, lucky), s, id); }
    }
  }

  lemma KnownEntry(b: Book, h: Hashes, x: NetAddr)
    requires Consistent(b, h) && x in b.ids
    ensures AddressAt(b, x)
  {
  }

  /** What is taken does not depend on the entry that takes it. */
  lemma TookFromBefore(b: Book, b1: Book, b': Book, s: Slot, id: int)
    requires id in b.info && id in b1.info && b1 == WithInfo(b, id, b1.info[id]) && Took(b1, b', s, id)
    ensures Took(b, b', s, id)
  {
    forall i | i in b.info && i != id ensures Bystander(b, b', s, i) {
      assert Bystander(b1, b', s, i);
    }
  }

  lemma AddNew(b: Book, h: Hashes, a: Address, source: NetAddr, penalty: int, now: int, lucky: bool)
    requires Consistent(b, h) && a.service.ip !in b.ids
    ensures AddsNew(b, Added(b, h, a, source, penalty, now, lucky), h, a, source, penalty, now)
  {
    hide Placed, Inv, Hopeless, Deleted, Deletable, Bystander;
    var n, b1 := b.idCount, Entered(b, a, source, penalty);
    EnteredInv(b, h, a, source, penalty);
    PlacedRule(b1, h, n, source, now, {n});
    var s := NewPlace(h, a.service, source);
    if s in b.newSlots { HolderKnown(b, h, {}, s); }
    var b' := Added(b, h, a, source, penalty, now, lucky);
    if Gets(b1, s, n, now) {
      TookFromEntered(b, b1, b', s, n);
    } else {
      assert RandomOk(b) by { RandomOfInv(b, h); }
      CreateThenDelete(b, a, source, penalty);
    }
  }

  lemma RandomOfInv(b: Book, h: Hashes)
    requires Consistent(b, h)
    ensures RandomOk(b)
  {
  }

  lemma TookFromEntered(b: Book, b1: Book, b': Book, s: Slot, n: int)
    requires n == b.idCount && n in b1.info && n in b'.info && Took(b1, b', s, n)
    requires b1.info == b.info[n := b1.info[n]] && b1.newSlots == b.newSlots && b1.triedSlots == b.triedSlots
    requires b1.idCount == n + 1
    ensures Took(b.(idCount := b'.idCount, info := b.info[n := b'.info[n]]), b', s, n)
  {
    var b0 := b.(idCount := b'.idCount, info := b.info[n := b'.info[n]]);
    forall i | i in b0.info && i != n ensures Bystander(b0, b', s, i) {
      assert Bystander(b1, b', s, i);
    }
  }

  // ----- Good_ -----

  /** The tried entry at slot t goes to the slot of the new table that its source points to. */
  ghost predicate WentBack(b: Book, b': Book, h: Hashes, t: Slot)
    requires t in b.triedSlots && b.triedSlots[t] in b.info
  {
    var e := b.triedSlots[t];
    var s := NewPlace(h, b.info[e].address.service, b.info[e].source);
    && b'.newSlots == b.newSlots[s := e] && b'.triedSlots == b.triedSlots - {t} && b'.idCount == b.idCount
    && b'.info.Keys <= b.info.Keys && e in b'.info
    && b'.info[e] == b.info[e].(inTried := false, refCount := 1, randomPos := b'.info[e].randomPos)
    && forall i {:trigger Bystander(b, b', s, i)} :: i in b.info && i != e ==> Bystander(b, b', s, i)
  }

  lemma ReadmitRule(b: Book, h: Hashes, id: int, t: Slot)
    requires Inv(b, h, {id}, 1) && id in b.info && b.info[id].refCount == 0 && !b.info[id].inTried
    requires t in b.triedSlots
    ensures b.triedSlots[t] in b.info && b.triedSlots[t] != id && WentBack(b, Readmitted(b, h, t), h, t)
  {
    hide Inv, ClearedNew, Bystander;
    ReadmitStages(b, h, id, t);
    EvictKeeps(b, h, {id}, 1, t);
    var e := b.triedSlots[t];
    var b1, s := Evicted(b, t), HomeSlot(h, b.info[e]);
    Places(h, b.info[e], b.info[e].source);
    TakesSlot(b1, h, {id, e}, 2, s, e);
    var b' := Readmitted(b, h, t);
    forall i | i in b.info && i != e ensures Bystander(b, b', s, i) {
      assert Bystander(b1, Slotted(ClearedNew(b1, s), s, e), s, i);
      EvictedBystander(b, b1, Slotted(ClearedNew(b1, s), s, e), b', s, i);
    }
  }

  lemma EvictedBystander(b: Book, b1: Book, b2: Book, b': Book, s: Slot, i: int)
    requires i in b.info && i in b1.info && b1.info[i] == b.info[i] && b1.newSlots == b.newSlots && b'.info == b2.info
    requires Bystander(b1, b2, s, i)
    ensures Bystander(b, b', s, i)
  {
  }

  /** The new table without the slots of id. */
  ghost function Without(b: Book, id: int): Book {
    b.(newSlots := map s | s in b.newSlots && b.newSlots[s] != id :: b.newSlots[s])
  }

  /**
   What Good_ does with an address in the book under id.  An entry of the new table gives up all its
   slots there for its slot of the tried table; who was there goes back.
   */
  ghost predicate MakesGood(b: Book, b': Book, h: Hashes, id: int, time: int)
    requires id in b.info
  {
    var y := b.info[id].(lastSuccess := time, lastTry := time, attempts := 0);
    if y.inTried then b' == b.(info := b.info[id := y])
    else
      var t := TriedPlace(h, y.address.service);
      && id in b'.info && b'.info[id] == y.(refCount := 0, inTried := true, randomPos := b'.info[id].randomPos)
      && if t in b.triedSlots && b.triedSlots[t] in b.info then
           MovesBack(b, b', h, id, t)
         else
           && b'.triedSlots == b.triedSlots[t := id] && b'.newSlots == Without(b, id).newSlots
           && b'.idCount == b.idCount && b'.info == b.info[id := b'.info[id]]
  }

  ghost predicate MovesBack(b: Book, b': Book, h: Hashes, id: int, t: Slot)
    requires t in b.triedSlots && b.triedSlots[t] in b.info
  {
    var e, b0 := b.triedSlots[t], Without(b, id);
    var s := NewPlace(h, b.info[e].address.service, b.info[e].source);
    && b'.triedSlots == b.triedSlots[t := id] && b'.newSlots == b0.newSlots[s := e] && b'.idCount == b.idCount
    && b'.info.Keys <= b.info.Keys && e in b'.info && e != id
    && b'.info[e] == b.info[e].(inTried := false, refCount := 1, randomPos := b'.info[e].randomPos)
    && forall i {:trigger Bystander(b0, b', s, i)} :: i in b.info && i != e && i != id ==> Bystander(b0, b', s, i)
  }

  lemma MadeTriedRule(b: Book, h: Hashes, id: int)
    requires Consistent(b, h) && id in b.info && !b.info[id].inTried
    ensures var t, b' := TriedPlace(h, b.info[id].address.service), MadeTried(b, h, id);
      && id in b'.info
      && b'.info[id] == b.info[id].(refCount := 0, inTried := true, randomPos := b'.info[id].randomPos)
      && if t in b.triedSlots && b.triedSlots[t] in b.info then MovesBack(b, b', h, id, t)
         else
           && b'.triedSlots == b.triedSlots[t := id] && b'.newSlots == Without(b, id).newSlots
           && b'.idCount == b.idCount && b'.info == b.info[id := b'.info[id]]
  {
    hide Inv, Readmitted, Bystander, Took;
    var t := TriedSlot(h, b.info[id]);
    Places(h, b.info[id], 0);
    var b1 := Unreferenced(b, id);
    UnreferenceKeeps(b, h, id);
    if t in b.triedSlots {
      ReadmitRule(b1, h, id, t);
      LooseHasNoSlot(b1, h, {id}, 1, id);
      IdKept(b1, Readmitted(b1, h, t), h, id, t);
      MovedBack(b, b1, Readmitted(b1, h, t), MadeTried(b, h, id), h, id, t);
    } else {
      assert Readmitted(b1, h, t) == b1 by { NothingReadmitted(b1, h, t); }
    }
  }

  lemma NothingReadmitted(b: Book, h: Hashes, t: Slot)
    requires t !in b.triedSlots
    ensures Readmitted(b, h, t) == b
  {
  }

  lemma IdKept(b1: Book, b2: Book, h: Hashes, id: int, t: Slot)
    requires t in b1.triedSlots && b1.triedSlots[t] in b1.info && b1.triedSlots[t] != id && WentBack(b1, b2, h, t)
    requires id in b1.info && forall s :: s in b1.newSlots ==> b1.newSlots[s] != id
    ensures id in b2.info && b2.info[id] == b1.info[id].(randomPos := b2.info[id].randomPos)
  {
    var e := b1.triedSlots[t];
    assert Bystander(b1, b2, NewPlace(h, b1.info[e].address.service, b1.info[e].source), id);
  }

  lemma MovedBack(b: Book, b1: Book, b2: Book, b': Book, h: Hashes, id: int, t: Slot)
    requires t in b1.triedSlots && b1.triedSlots[t] in b1.info && b1.triedSlots[t] != id && WentBack(b1, b2, h, t)
    requires id in b.info && id in b1.info && b1.info == b.info[id := b1.info[id]]
    requires b1.triedSlots == b.triedSlots && b1.idCount == b.idCount && b1.newSlots == Without(b, id).newSlots
    requires id in b2.info && b' == Promoted(b2, t, id)
    ensures b.triedSlots[t] in b.info && MovesBack(b, b', h, id, t)
  {
    hide Bystander, Without;
    var e, b0 := b.triedSlots[t], Without(b, id);
    var s := NewPlace(h, b.info[e].address.service, b.info[e].source);
    assert b0.info == b.info by { SameInfo(b, id); }
    forall i | i in b.info && i != e && i != id ensures Bystander(b0, b', s, i) {
      assert Bystander(b1, b2, s, i);
      PromotedBystander(b1, b2, b0, b', s, i);
    }
  }

  lemma SameInfo(b: Book, id: int)
    ensures Without(b, id).info == b.info
  {
  }

  lemma PromotedBystander(b1: Book, b2: Book, b0: Book, b': Book, s: Slot, i: int)
    requires i in b1.info && i in b0.info && b0.info[i] == b1.info[i] && b0.newSlots == b1.newSlots
    requires (i in b2.info <==> i in b'.info) && (i in b2.info ==> b'.info[i] == b2.info[i]) && Bystander(b1, b2, s, i)
    ensures Bystander(b0, b', s, i)
  {
  }

  /** Good_ of an unknown address, or of a known one with another port, changes nothing. */
  lemma GoodRule(b: Book, h: Hashes, x: Service, time: int)
    requires Consistent(b, h)
    ensures if x.ip in b.ids && b.ids[x.ip] in b.info && b.info[b.ids[x.ip]].address.service == x
            then MakesGood(b, Gooded(b, h, x, time), h, b.ids[x.ip], time) else Gooded(b, h, x, time) == b
  {
    hide Inv, MadeTried, MovesBack, Without;
    if x.ip in b.ids && b.ids[x.ip] in b.info && b.info[b.ids[x.ip]].address.service == x {
      var id := b.ids[x.ip];
      var y := Succeeded(b.info[id], time);
      var b1 := WithInfo(b, id, y);
      WithInfoKeeps(b, h, {}, 0, id, y);
      if !y.inTried {
        MadeTriedRule(b1, h, id);
        var t := TriedPlace(h, x);
        SameWithout(b, b1, id);
        if t in b.triedSlots && b.triedSlots[t] in b.info { GoodFromBefore(b, b1, MadeTried(b1, h, id), h, id, t); }
      }
    }
  }

  lemma SameWithout(b: Book, b1: Book, id: int)
    requires b1.newSlots == b.newSlots
    ensures Without(b1, id).newSlots == Without(b, id).newSlots
  {
  }

  lemma GoodFromBefore(b: Book, b1: Book, b': Book, h: Hashes, id: int, t: Slot)
    requires id in b.info && id in b1.info && b1 == WithInfo(b, id, b1.info[id])
    requires b1.info[id].address == b.info[id].address
    requires t in b.triedSlots && b.triedSlots[t] in b.info && MovesBack(b1, b', h, id, t)
    ensures MovesBack(b, b', h, id, t)
  {
    var e := b.triedSlots[t];
    var s := NewPlace(h, b.info[e].address.service, b.info[e].source);
    SameWithout(b, b1, id);
    forall i | i in b.info && i != e && i != id ensures Bystander(Without(b, id), b', s, i) {
      assert Bystander(Without(b1, id), b', s, i);
    }
  }
}
