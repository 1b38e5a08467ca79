/** The times in the address book: which calls keep them as Check_ wants them (src/addrman.cpp). */
module AddrTimes {
  import opened AddrModel
  import opened AddrOps

  /** b' has no entry that b has not, none with other times, and none newly in tried. */
  ghost predicate Derived(b: Book, b': Book) {
    forall i {:trigger i in b'.info} :: i in b'.info ==>
      && i in b.info && b'.info[i].lastTry == b.info[i].lastTry && b'.info[i].lastSuccess == b.info[i].lastSuccess
      && (b'.info[i].inTried ==> b.info[i].inTried)
  }

  lemma DerivedTimes(b: Book, b': Book)
    requires Derived(b, b') && TimesOk(b)
    ensures TimesOk(b')
  {
    forall i | i in b'.info ensures TimesAt(b', i) { assert TimesAt(b, i); }
  }

  lemma DerivedOn(b: Book, b1: Book, b2: Book)
    requires Derived(b, b1) && Derived(b1, b2)
    ensures Derived(b, b2)
  {
  }

  lemma DeletedDerived(b: Book, id: int)
    requires Deletable(b, id)
    ensures Derived(b, Deleted(b, id))
  {
  }

  lemma ClearedDerived(b: Book, s: Slot)
    ensures Derived(b, ClearedNew(b, s))
  {
    if s in b.newSlots && b.newSlots[s] in b.info {
      var id := b.newSlots[s];
      var b1 := Unslotted(b, s);
      if b1.info[id].refCount == 0 && Deletable(b1, id) {
        DeletedDerived(b1, id);
        DerivedOn(b, b1, Deleted(b1, id));
      }
    }
  }

  lemma ReadmittedDerived(b: Book, h: Hashes, t: Slot)
    ensures Derived(b, Readmitted(b, h, t))
  {
    if t in b.triedSlots && b.triedSlots[t] in b.info {
      var b1 := Evicted(b, t);
      ClearedDerived(b1, HomeSlot(h, b.info[b.triedSlots[t]]));
    }
  }

  lemma PlacedDerived(b: Book, h: Hashes, id: int, source: NetAddr, now: int)
    requires id in b.info
    ensures Derived(b, Placed(b, h, id, source, now))
  {
    var s := NewSlot(h, b.info[id], h.NewBucket(b.info[id].address.service, source));
    ClearedDerived(b, s);
    if Deletable(b, id) { DeletedDerived(b, id); }
  }

  /** The call names an entry that the book has. */
  ghost predicate Hits(b: Book, x: Service) {
    x.ip in b.ids && b.ids[x.ip] in b.info && b.info[b.ids[x.ip]].address.service == x
  }

  ghost function Attempted(b: Book, x: Service, time: int): Book {
    if Hits(b, x) then
      var id := b.ids[x.ip];
      WithInfo(b, id, b.info[id].(lastTry := time, attempts := b.info[id].attempts + 1))
    else b
  }

  /** Attempt_ keeps the times in order if and only if it hits nothing or its time is not negative. */
  lemma AttemptTimes(b: Book, x: Service, time: int)
    requires TimesOk(b)
    ensures TimesOk(Attempted(b, x, time)) <==> (Hits(b, x) ==> time >= 0)
  {
    var b' := Attempted(b, x, time);
    if Hits(b, x) {
      var id := b.ids[x.ip];
      assert TimesAt(b', id) <==> time >= 0 by { assert TimesAt(b, id); }
      forall i | i in b'.info && i != id ensures TimesAt(b', i) { assert TimesAt(b, i); }
    }
  }

  /** Good_ keeps the times in order if and only if it hits nothing or its time is positive. */
  lemma GoodTimes(b: Book, h: Hashes, x: Service, time: int)
    requires Consistent(b, h) && TimesOk(b)
    ensures TimesOk(Gooded(b, h, x, time)) <==> (Hits(b, x) ==> time > 0)
  {
    hide Consistent, Readmitted, Unreferenced;
    if Hits(b, x) {
      var id := b.ids[x.ip];
      var b1 := WithInfo(b, id, Succeeded(b.info[id], time));
      assert TimesAt(b1, id) <==> time >= 0 && (b.info[id].inTried ==> time != 0);
      forall i | i in b1.info && i != id ensures TimesAt(b1, i) { assert TimesAt(b, i); }
      if !b.info[id].inTried {
        MadeTimes(b, h, id, time);
      }
    }
  }

  lemma MadeTimes(b: Book, h: Hashes, id: int, time: int)
    requires Consistent(b, h) && TimesOk(b) && id in b.info && !b.info[id].inTried
    ensures TimesOk(MadeTried(WithInfo(b, id, Succeeded(b.info[id], time)), h, id)) <==> time > 0
  {
    hide Readmitted;
    var b1 := WithInfo(b, id, Succeeded(b.info[id], time));
    WithInfoKeeps(b, h, {}, 0, id, Succeeded(b.info[id], time));
    MakeTriedKeeps(b1, h, id);
    var t := TriedSlot(h, b1.info[id]);
    var b2 := Readmitted(Unreferenced(b1, id), h, t);
    ReadmittedDerived(Unreferenced(b1, id), h, t);
    UnreferenceKeeps(b1, h, id);
    ReadmitKeeps(Unreferenced(b1, id), h, id, t);
    assert id in b2.info;
    var b' := Promoted(b2, t, id);
    assert b' == MadeTried(b1, h, id);
    assert TimesAt(b', id) <==> time > 0;
    forall i | i in b'.info && i != id ensures TimesAt(b', i) { assert TimesAt(b, i); }
  }

  /** Add_ keeps the times in order whatever its arguments are. */
  lemma AddTimes(b: Book, h: Hashes, a: Address, source: NetAddr, penalty: int, now: int, lucky: bool)
    requires TimesOk(b)
    ensures TimesOk(Added(b, h, a, source, penalty, now, lucky))
  {
    hide Placed;
    if a.service.ip in b.ids && b.ids[a.service.ip] in b.info {
      var id := b.ids[a.service.ip];
      var b1 := WithInfo(b, id, Refreshed(b.info[id], a, penalty, now));
      forall i | i in b1.info ensures TimesAt(b1, i) { assert TimesAt(b, i); }
      PlacedDerived(b1, h, id, source, now);
      DerivedTimes(b1, Placed(b1, h, id, source, now));
    } else {
      var b1 := Entered(b, a, source, penalty);
      forall i | i in b1.info ensures TimesAt(b1, i) { if i != b.idCount { assert TimesAt(b, i); } }
      PlacedDerived(b1, h, b.idCount, source, now);
      DerivedTimes(b1, Placed(b1, h, b.idCount, source, now));
    }
  }
}
