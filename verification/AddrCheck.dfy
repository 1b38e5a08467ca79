/** Check_ (src/addrman.cpp): the address manager's own consistency check, condition by condition. */
module AddrCheck {
  import opened AddrModel

  /** The tests of Check_ on one entry: error codes -1, -2, -3, -4, -5, -14, -6 and -8. */
  ghost predicate EntryPasses(b: Book, id: int)
    requires id in b.info
  {
    var x := b.info[id];
    && (x.inTried ==> x.lastSuccess != 0 && x.refCount == 0)
    && (!x.inTried ==> 0 < x.refCount <= NEW_BUCKETS_PER_ADDRESS)
    && x.Ip() in b.ids && b.ids[x.Ip()] == id
    && 0 <= x.randomPos < |b.random| && b.random[x.randomPos] == id
    && x.lastTry >= 0 && x.lastSuccess >= 0
  }

  /**
   All of Check_.  Its walk over the tried table erases each tried id when it is met, so every id
   must be met, and met once (-11, -13); its walk over the new table counts every reference down to
   zero (-12, -15).
   */
  ghost predicate Passes(b: Book, h: Hashes) {
    && |b.random| == b.nTried + b.nNew                                          // -7
    && (forall id {:trigger EntryPasses(b, id)} :: id in b.info ==> EntryPasses(b, id))
    && |TriedIds(b)| == b.nTried && |UntriedIds(b)| == b.nNew                   // -9, -10
    && (forall s :: s in b.triedSlots ==>
          b.triedSlots[s] in TriedIds(b) && s == TriedSlot(h, b.info[b.triedSlots[s]]))   // -11, -17, -18
    && (forall s, r :: s in b.triedSlots && r in b.triedSlots && s != r ==> b.triedSlots[s] != b.triedSlots[r])
    && (forall id :: id in TriedIds(b) ==> exists s :: s in b.triedSlots && b.triedSlots[s] == id)   // -13
    && (forall s :: s in b.newSlots ==>
          b.newSlots[s] in UntriedIds(b) && s == NewSlot(h, b.info[b.newSlots[s]], s.0))  // -12, -19
    && (forall id :: id in UntriedIds(b) ==> b.info[id].refCount == |SlotsOf(b, id)|)     // -15
  }

  lemma {:induction false} DistinctSize(s: seq<int>)
    requires forall i, j :: 0 <= i < j < |s| ==> s[i] != s[j]
    ensures |set x | x in s| == |s|
  {
    if s != [] {
      var n := |s| - 1;
      DistinctSize(s[..n]);
      assert (set x | x in s) == (set x | x in s[..n]) + {s[n]};
    }
  }

  lemma RandomSize(b: Book)
    requires RandomOk(b)
    ensures |b.random| == |b.info.Keys|
  {
    forall i, j | 0 <= i < j < |b.random| ensures b.random[i] != b.random[j] { assert IdIn(b, i) && IdIn(b, j); }
    forall id ensures id in b.random <==> id in b.info {
      if id in b.info { assert PlaceOf(b, id); }
      if id in b.random { var i :| 0 <= i < |b.random| && b.random[i] == id; assert IdIn(b, i); }
    }
    DistinctSize(b.random);
    assert (set x | x in b.random) == b.info.Keys;
  }

  /** In a consistent book every test of Check_ passes if and only if its times are in order. */
  lemma PassesIffTimes(b: Book, h: Hashes)
    requires Consistent(b, h)
    ensures Passes(b, h) <==> TimesOk(b)
  {
    if Passes(b, h) {
      forall id | id in b.info ensures TimesAt(b, id) { assert EntryPasses(b, id); }
    }
    if TimesOk(b) { ConsistentPasses(b, h); }
  }

  lemma ConsistentPasses(b: Book, h: Hashes)
    requires Consistent(b, h) && TimesOk(b)
    ensures Passes(b, h)
  {
    RandomSize(b);
    assert b.info.Keys == TriedIds(b) + UntriedIds(b);
    forall id | id in b.info ensures EntryPasses(b, id) {
      assert EntryOk(b, {}, id) && IdAt(b, id) && PlaceOf(b, id) && TimesAt(b, id);
    }
    forall s | s in b.triedSlots ensures b.triedSlots[s] in TriedIds(b) && s == TriedSlot(h, b.info[b.triedSlots[s]]) {
      assert TriedSlotOk(b, h, s);
    }
    forall s | s in b.newSlots ensures b.newSlots[s] in UntriedIds(b) && s == NewSlot(h, b.info[b.newSlots[s]], s.0) {
      assert FreshSlotOk(b, h, s);
    }
    forall id | id in TriedIds(b) ensures exists s :: s in b.triedSlots && b.triedSlots[s] == id {
      assert b.info[id].inTried && TriedSlot(h, b.info[id]) in b.triedSlots;
    }
    forall id | id in UntriedIds(b) ensures b.info[id].refCount == |SlotsOf(b, id)| { assert EntryOk(b, {}, id); }
  }
}
