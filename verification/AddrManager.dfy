/** CAddrMan: the address manager, its five structures updated in place (src/addrman.cpp). */
module AddrManager {
  import opened Wrappers
  import opened AddrCheck
  import opened AddrModel
  import opened AddrOps

  const GETADDR_MAX_PCT: nat := 23
  const GETADDR_MAX: nat := 2500

  /** A bucket table as a map of its occupied slots. */
  ghost function Occupied(t: array2<int>): map<Slot, int>
    reads t
  {
    map x: nat, p: nat | x < t.Length0 && p < t.Length1 && t[x, p] != -1 :: (x, p) := t[x, p]
  }

  method SetSlot(t: array2<int>, s: Slot, id: int)
    requires s.0 < t.Length0 && s.1 < t.Length1
    modifies t
    ensures id == -1 ==> Occupied(t) == old(Occupied(t)) - {s}
    ensures id != -1 ==> Occupied(t) == old(Occupied(t))[s := id]
    ensures t[s.0, s.1] == id
  {
    t[s.0, s.1] := id;
  }

  class CAddrMan {
    var mapInfo: map<int, Info>
    var mapAddr: map<NetAddr, int>
    var vRandom: seq<int>
    var nTried: int
    var nNew: int
    var nIdCount: int
    const vvTried: array2<int>
    const vvNew: array2<int>
    const h: Hashes

    ghost predicate Repr() {
      && vvTried != vvNew
      && vvTried.Length0 == TRIED_BUCKET_COUNT && vvTried.Length1 == BUCKET_SIZE
      && vvNew.Length0 == NEW_BUCKET_COUNT && vvNew.Length1 == BUCKET_SIZE
    }

    ghost function B(): Book
      reads this, vvTried, vvNew
    {
      Book(mapInfo, mapAddr, vRandom, Occupied(vvTried), Occupied(vvNew), nTried, nNew, nIdCount)
    }

    ghost predicate Valid()
      reads this, vvTried, vvNew
    {
      Repr() && Consistent(B(), h)
    }

    /** Clear. */
    constructor (h: Hashes)
      ensures Valid() && fresh(vvTried) && fresh(vvNew) && this.h == h
      ensures B() == Book(map[], map[], [], map[], map[], 0, 0, 0)
    {
      this.h := h;
      mapInfo, mapAddr, vRandom := map[], map[], [];
      nTried, nNew, nIdCount := 0, 0, 0;
      vvTried := new int[TRIED_BUCKET_COUNT, BUCKET_SIZE]((i, j) => -1);
      vvNew := new int[NEW_BUCKET_COUNT, BUCKET_SIZE]((i, j) => -1);
      new;
      assert Occupied(vvTried) == map[] && Occupied(vvNew) == map[];
      assert TriedIds(B()) == {} && UntriedIds(B()) == {};
    }

    /** Find. */
    function Find(ip: NetAddr): (id: Option<int>)
      reads this
    {
      if ip in mapAddr && mapAddr[ip] in mapInfo then Some(mapAddr[ip]) else None
    }

    method Create(a: Address, source: NetAddr) returns (id: int)
      modifies this`mapInfo, this`mapAddr, this`vRandom, this`nIdCount
      ensures id == old(nIdCount) && B() == Created(old(B()), a, source)
    {
      id := nIdCount;
      nIdCount := nIdCount + 1;
      mapInfo := mapInfo[id := NewInfo(a, source)];
      mapAddr := mapAddr[a.service.ip := id];
      mapInfo := mapInfo[id := mapInfo[id].(randomPos := |vRandom|)];
      vRandom := vRandom + [id];
    }

    method SwapRandom(p: int, q: int)
      requires Swappable(B(), p, q)
      modifies this`mapInfo, this`vRandom
      ensures B() == Swapped(old(B()), p, q)
    {
      if p == q {
        return;
      }
      var i, j := vRandom[p], vRandom[q];
      mapInfo := mapInfo[i := mapInfo[i].(randomPos := q)];
      mapInfo := mapInfo[j := mapInfo[j].(randomPos := p)];
      vRandom := vRandom[p := j];
      vRandom := vRandom[q := i];
    }

    /** Delete.  Its asserts are met: the entry is known, not in tried and not referenced. */
    method Delete(id: int, ghost loose: set<int>, ghost u: int)
      requires Inv(B(), h, loose, u) && id in mapInfo
      requires !mapInfo[id].inTried && mapInfo[id].refCount == 0
      modifies this`mapInfo, this`mapAddr, this`vRandom, this`nNew
      ensures Deletable(old(B()), id) && B() == Deleted(old(B()), id)
    {
      SwapToEnd(B(), id);
      SwapRandom(mapInfo[id].randomPos, |vRandom| - 1);
      vRandom := vRandom[..|vRandom| - 1];
      mapAddr := mapAddr - {mapInfo[id].Ip()};
      mapInfo := mapInfo - {id};
      nNew := nNew - 1;
    }

    /** One slot of id is emptied and its reference given back. */
    method GiveUpSlot(id: int, s: Slot)
      requires Repr() && s.0 < NEW_BUCKET_COUNT && s.1 < BUCKET_SIZE
      requires s in B().newSlots && B().newSlots[s] == id && id in mapInfo
      modifies this`mapInfo, vvNew
      ensures B() == Unslotted(old(B()), s) && id in mapInfo
    {
      mapInfo := mapInfo[id := mapInfo[id].(refCount := mapInfo[id].refCount - 1)];
      SetSlot(vvNew, s, -1);
    }

    /** ClearNew.  Its assert (a reference to give back) is met. */
    method ClearNew(s: Slot, ghost loose: set<int>, ghost u: int)
      requires Repr() && Inv(B(), h, loose, u) && s.0 < NEW_BUCKET_COUNT && s.1 < BUCKET_SIZE
      modifies this`mapInfo, this`mapAddr, this`vRandom, this`nNew, vvNew
      ensures B() == ClearedNew(old(B()), s)
    {
      if vvNew[s.0, s.1] != -1 {
        var id := vvNew[s.0, s.1];
        ghost var b := B();
        assert s in b.newSlots && b.newSlots[s] == id;
        UnslotKeeps(b, h, loose, u, s);
        GiveUpSlot(id, s);
        if mapInfo[id].refCount == 0 {
          Delete(id, loose + {id}, u);
        }
      }
    }

    /** What is left of the new table after id's slots in the buckets below k were emptied. */
    static ghost function ClearedBelow(t: map<Slot, int>, id: int, k: int): map<Slot, int> {
      map s: Slot | s in t && !(t[s] == id && s.0 < k) :: t[s]
    }

    static lemma ClearedBelowStep(b: Book, h: Hashes, id: int, k: nat)
      requires TablesOk(b, h) && id in b.info && k < NEW_BUCKET_COUNT
      ensures var s := NewSlot(h, b.info[id], k); var t := b.newSlots;
        ClearedBelow(t, id, k + 1) == if s in t && t[s] == id then ClearedBelow(t, id, k) - {s}
          else ClearedBelow(t, id, k)
    {
      var s := NewSlot(h, b.info[id], k);
      forall r | r in b.newSlots && b.newSlots[r] == id && r.0 == k ensures r == s { assert FreshSlotOk(b, h, r); }
    }

    /** One bucket of the first loop of MakeTried. */
    method UnslotBucket(id: int, bucket: nat, ghost start: Book)
      requires Repr() && bucket < NEW_BUCKET_COUNT && id in start.info && Consistent(start, h)
      requires Inv(B(), h, {id}, 0) && B().newSlots == ClearedBelow(start.newSlots, id, bucket)
      requires id in mapInfo && B() == start.(newSlots := B().newSlots,
        info := start.info[id := start.info[id].(refCount := mapInfo[id].refCount)])
      modifies this`mapInfo, vvNew
      ensures Inv(B(), h, {id}, 0) && B().newSlots == ClearedBelow(start.newSlots, id, bucket + 1)
      ensures id in mapInfo && B() == start.(newSlots := B().newSlots,
        info := start.info[id := start.info[id].(refCount := mapInfo[id].refCount)])
    {
      var s := NewSlot(h, mapInfo[id], bucket);
      ghost var b := B();
      assert s == NewSlot(h, start.info[id], bucket);
      ClearedBelowStep(start, h, id, bucket);
      assert s in b.newSlots <==> vvNew[s.0, s.1] != -1;
      if vvNew[s.0, s.1] == id {
        assert IdAt(start, id);
        UnslotKeeps(b, h, {id}, 0, s);
        assert {id} + {id} == {id};
        GiveUpSlot(id, s);
      }
    }

    /** The first loop of MakeTried: all slots of id are emptied, and its reference count is then zero. */
    method Unreference(id: int)
      requires Valid() && id in mapInfo && !mapInfo[id].inTried
      modifies this`mapInfo, this`nNew, vvNew
      ensures B() == Unreferenced(old(B()), id)
    {
      ghost var start := B();
      Loosen(start, h, id);
      assert ClearedBelow(start.newSlots, id, 0) == start.newSlots;
      var bucket := 0;
      while bucket < NEW_BUCKET_COUNT
        invariant 0 <= bucket <= NEW_BUCKET_COUNT
        invariant Inv(B(), h, {id}, 0) && B().newSlots == ClearedBelow(start.newSlots, id, bucket)
        invariant id in mapInfo && B() == start.(newSlots := B().newSlots,
          info := start.info[id := start.info[id].(refCount := mapInfo[id].refCount)])
      {
        UnslotBucket(id, bucket, start);
        bucket := bucket + 1;
      }
      AllCleared(start, B(), h, id);
      nNew := nNew - 1;
    }

    static lemma Loosen(b: Book, h: Hashes, id: int)
      requires Consistent(b, h) && id in b.info && !b.info[id].inTried
      ensures Inv(b, h, {id}, 0)
    {
      forall i | i in b.info ensures EntryOk(b, {id}, i) { assert EntryOk(b, {}, i); }
    }

    static lemma AllCleared(start: Book, b: Book, h: Hashes, id: int)
      requires Consistent(start, h) && Inv(b, h, {id}, 0) && id in b.info
      requires b.newSlots == ClearedBelow(start.newSlots, id, NEW_BUCKET_COUNT)
      ensures b.newSlots == map s: Slot | s in start.newSlots && start.newSlots[s] != id :: start.newSlots[s]
      ensures b.info[id].refCount == 0
    {
      forall s | s in start.newSlots ensures s.0 < NEW_BUCKET_COUNT { assert FreshSlotOk(start, h, s); }
      assert EntryOk(b, {id}, id);
      assert SlotsOf(b, id) == {};
    }

    /** The tried entry in slot t is taken out. */
    method Evict(t: Slot, ghost loose: set<int>, ghost u: int) returns (e: int)
      requires Repr() && Inv(B(), h, loose, u) && t in B().triedSlots
      modifies this`mapInfo, this`nTried, vvTried
      ensures e == old(B()).triedSlots[t] && e in old(mapInfo) && B() == Evicted(old(B()), t)
    {
      assert TriedSlotOk(B(), h, t);
      e := vvTried[t.0, t.1];
      mapInfo := mapInfo[e := mapInfo[e].(inTried := false)];
      SetSlot(vvTried, t, -1);
      nTried := nTried - 1;
    }

    /** The eviction in MakeTried: the tried entry in slot t goes back to the new table. */
    method Readmit(t: Slot, ghost id: int)
      requires Repr() && Inv(B(), h, {id}, 1) && t in B().triedSlots
      requires id in mapInfo && mapInfo[id].refCount == 0 && !mapInfo[id].inTried
      modifies this`mapInfo, this`mapAddr, this`vRandom, this`nNew, this`nTried, vvNew, vvTried
      ensures B() == Readmitted(old(B()), h, t)
    {
      ghost var b := B();
      ReadmitStages(b, h, id, t);
      var e := Evict(t, {id}, 1);
      assert IdAt(b, e);
      var s := HomeSlot(h, mapInfo[e]);
      ClearNew(s, {id, e}, 2);
      Resettle(e, s);
    }

    /** An entry without references enters the new table again. */
    method Resettle(e: int, s: Slot)
      requires Repr() && e in mapInfo && mapInfo[e].refCount == 0 && e != -1
      requires s.0 < NEW_BUCKET_COUNT && s.1 < BUCKET_SIZE
      modifies this`mapInfo, this`nNew, vvNew
      ensures e in old(mapInfo) && B() == Slotted(old(B()), s, e).(nNew := old(nNew) + 1)
    {
      mapInfo := mapInfo[e := mapInfo[e].(refCount := 1)];
      SetSlot(vvNew, s, e);
      nNew := nNew + 1;
    }

    /** MakeTried.  Its three asserts are met. */
    method MakeTried(id: int)
      requires Valid() && id in mapInfo && !mapInfo[id].inTried
      modifies this, vvNew, vvTried
      ensures Valid() && B() == MadeTried(old(B()), h, id)
    {
      ghost var b := B();
      MakeTriedKeeps(b, h, id);
      UnreferenceKeeps(b, h, id);
      assert IdAt(b, id);
      var t := TriedSlot(h, mapInfo[id]);
      Unreference(id);
      ghost var b1 := B();
      ReadmitKeeps(b1, h, id, t);
      if vvTried[t.0, t.1] != -1 {
        Readmit(t, id);
      }
      assert B() == Readmitted(b1, h, t);
      Promote(t, id);
    }

    /** The last lines of MakeTried. */
    method Promote(t: Slot, id: int)
      requires Repr() && id in mapInfo && id != -1 && t.0 < TRIED_BUCKET_COUNT && t.1 < BUCKET_SIZE
      modifies this`mapInfo, this`nTried, vvTried
      ensures B() == Promoted(old(B()), t, id)
    {
      SetSlot(vvTried, t, id);
      nTried := nTried + 1;
      mapInfo := mapInfo[id := mapInfo[id].(inTried := true)];
    }

    /** The n-th bucket Good_ looks at. */
    static function Probe(n: nat, rnd: nat): nat { (n + rnd) % NEW_BUCKET_COUNT }

    /** The search of Good_ for a slot that holds id, from a random bucket on.  It always finds one. */
    method FindBucket(id: int, rnd: nat) returns (bucket: int, ghost probes: nat)
      requires Valid() && id in mapInfo && !mapInfo[id].inTried && rnd < NEW_BUCKET_COUNT
      ensures 0 <= bucket < NEW_BUCKET_COUNT
      ensures vvNew[bucket, h.Position(mapInfo[id].address.service, true, bucket)] == id
      ensures probes < NEW_BUCKET_COUNT && bucket == Probe(probes, rnd)
      ensures forall m {:trigger Probe(m, rnd)} :: 0 <= m < probes ==>
        vvNew[Probe(m, rnd), h.Position(mapInfo[id].address.service, true, Probe(m, rnd))] != id
    {
      ghost var b := B();
      assert EntryOk(b, {}, id);
      ghost var s :| s in SlotsOf(b, id);
      assert FreshSlotOk(b, h, s);
      var n := 0;
      while n < NEW_BUCKET_COUNT
        invariant n <= NEW_BUCKET_COUNT
        invariant forall m :: 0 <= m < n ==> Probe(m, rnd) != s.0
        invariant forall m {:trigger Probe(m, rnd)} :: 0 <= m < n ==>
          vvNew[Probe(m, rnd), h.Position(mapInfo[id].address.service, true, Probe(m, rnd))] != id
      {
        bucket := Probe(n, rnd);
        var pos := h.Position(mapInfo[id].address.service, true, bucket);
        probes := n;
        if vvNew[bucket, pos] == id {
          return;
        }
        n := n + 1;
      }
      Reached(s.0, rnd);
      assert false;
    }

    /** Counting on from any start reaches every bucket. */
    static lemma Reached(x: nat, rnd: nat)
      requires x < NEW_BUCKET_COUNT && rnd < NEW_BUCKET_COUNT
      ensures exists m :: 0 <= m < NEW_BUCKET_COUNT && Probe(m, rnd) == x
    {
      var m := if x >= rnd then x - rnd else x + NEW_BUCKET_COUNT - rnd;
      assert Probe(m, rnd) == x;
    }

    /** Good_. */
    method Good(x: Service, time: int, rnd: nat)
      requires Valid() && rnd < NEW_BUCKET_COUNT
      modifies this, vvNew, vvTried
      ensures Valid() && B() == Gooded(old(B()), h, x, time)
    {
      ghost var b := B();
      GoodKeeps(b, h, x, time);
      var id := Find(x.ip);
      if id == None || mapInfo[id.value].address.service != x {
        return;
      }
      WithInfoKeeps(b, h, {}, 0, id.value, Succeeded(mapInfo[id.value], time));
      mapInfo := mapInfo[id.value := Succeeded(mapInfo[id.value], time)];
      assert B() == WithInfo(b, id.value, Succeeded(b.info[id.value], time));
      if mapInfo[id.value].inTried {
        return;
      }
      var bucket, _ := FindBucket(id.value, rnd);
      if bucket == -1 {
        return;
      }
      MakeTried(id.value);
    }

    /** id takes over slot s of the new table. */
    method Insert(id: int, s: Slot, ghost loose: set<int>)
      requires Repr() && Inv(B(), h, loose, 0) && id in mapInfo && id != -1
      requires s.0 < NEW_BUCKET_COUNT && s.1 < BUCKET_SIZE
      requires s in B().newSlots ==> B().newSlots[s] != id && B().newSlots[s] !in loose
      modifies this, vvNew
      ensures id in ClearedNew(old(B()), s).info && B() == Slotted(ClearedNew(old(B()), s), s, id)
    {
      ghost var b := B();
      ClearNewKeeps(b, h, loose, 0, s);
      ClearNew(s, loose, 0);
      assert Kept(b, B(), id);
      TakeSlot(id, s);
    }

    method TakeSlot(id: int, s: Slot)
      requires Repr() && s.0 < NEW_BUCKET_COUNT && s.1 < BUCKET_SIZE && id in mapInfo && id != -1
      modifies this`mapInfo, vvNew
      ensures B() == Slotted(old(B()), s, id)
    {
      mapInfo := mapInfo[id := mapInfo[id].(refCount := mapInfo[id].refCount + 1)];
      SetSlot(vvNew, s, id);
    }

    /** The end of Add_. */
    method Place(id: int, source: NetAddr, now: int, ghost loose: set<int>)
      requires Repr() && Inv(B(), h, loose, 0) && id in mapInfo && !mapInfo[id].inTried
      requires mapInfo[id].refCount < NEW_BUCKETS_PER_ADDRESS
      requires loose == if mapInfo[id].refCount == 0 then {id} else {}
      modifies this, vvNew
      ensures Valid() && B() == Placed(old(B()), h, id, source, now)
    {
      ghost var b := B();
      PlaceKeeps(b, h, id, source, now, loose);
      var s := NewSlot(h, mapInfo[id], h.NewBucket(mapInfo[id].address.service, source));
      if s in b.newSlots { assert FreshSlotOk(b, h, s); }
      assert IdAt(b, id);
      if mapInfo[id].refCount == 0 { LooseHasNoSlot(b, h, loose, 0, id); }
      if vvNew[s.0, s.1] != id {
        var insert := vvNew[s.0, s.1] == -1;
        if !insert {
          var existing := mapInfo[vvNew[s.0, s.1]];
          if IsTerrible(existing, now) || (existing.refCount > 1 && mapInfo[id].refCount == 0) {
            insert := true;
          }
        }
        if insert {
          Insert(id, s, loose);
        } else if mapInfo[id].refCount == 0 {
          Delete(id, loose, 0);
        }
      }
    }

    /** Add_ for a known address. */
    method Refresh(id: int, a: Address, source: NetAddr, penalty: int, now: int, lucky: bool)
      requires Valid() && Find(a.service.ip) == Some(id)
      modifies this, vvNew
      ensures Valid() && B() == Added(old(B()), h, a, source, penalty, now, lucky)
    {
      ghost var b := B();
      assert EntryOk(b, {}, id);
      WithInfoKeeps(b, h, {}, 0, id, Refreshed(mapInfo[id], a, penalty, now));
      mapInfo := mapInfo[id := Refreshed(mapInfo[id], a, penalty, now)];
      assert B() == WithInfo(b, id, Refreshed(b.info[id], a, penalty, now));
      if GivesSlot(mapInfo[id], a, lucky) {
        Place(id, source, now, {});
      }
    }

    /** Add_ for a new address. */
    method Enter(a: Address, source: NetAddr, penalty: int, now: int, ghost lucky: bool)
      requires Valid() && a.service.ip !in mapAddr
      modifies this, vvNew
      ensures Valid() && B() == Added(old(B()), h, a, source, penalty, now, lucky)
    {
      ghost var b := B();
      EnteredInv(b, h, a, source, penalty);
      var id := Create(a, source);
      mapInfo := mapInfo[id := mapInfo[id].(address := a.(time := Max(0, a.time - penalty)))];
      nNew := nNew + 1;
      assert B() == Entered(b, a, source, penalty);
      Place(id, source, now, {id});
    }

    /** Add_.  `routable` is the address's own test; `lucky` is whether the stochastic test lets it pass. */
    method Add(a: Address, source: NetAddr, penalty: int, now: int, routable: bool, lucky: bool) returns (isNew: bool)
      requires Valid()
      modifies this, vvNew
      ensures Valid() && isNew == (routable && a.service.ip !in old(mapAddr))
      ensures B() == if routable then Added(old(B()), h, a, source, penalty, now, lucky) else old(B())
    {
      if !routable {
        return false;
      }
      assert a.service.ip in mapAddr ==> AddressAt(B(), a.service.ip);
      var id := Find(a.service.ip);
      if id.Some? {
        Refresh(id.value, a, source, penalty, now, lucky);
        return false;
      } else {
        Enter(a, source, penalty, now, lucky);
        return true;
      }
    }

    /** Attempt_. */
    method Attempt(x: Service, time: int)
      requires Valid()
      modifies this`mapInfo
      ensures Valid()
      ensures B() == match old(Find(x.ip))
        case None => old(B())
        case Some(id) =>
          var y := old(mapInfo[id]);
          if y.address.service != x then old(B())
            else WithInfo(old(B()), id, y.(lastTry := time, attempts := y.attempts + 1))
    {
      var id := Find(x.ip);
      if id == None || mapInfo[id.value].address.service != x {
        return;
      }
      var y := mapInfo[id.value];
      assert EntryOk(B(), {}, id.value);
      WithInfoKeeps(B(), h, {}, 0, id.value, y.(lastTry := time, attempts := y.attempts + 1));
      ghost var b' := WithInfo(B(), id.value, y.(lastTry := time, attempts := y.attempts + 1));
      mapInfo := mapInfo[id.value := y.(lastTry := time, attempts := y.attempts + 1)];
      assert B() == b';
    }

    /** Connected_. */
    method Connected(x: Service, time: int)
      requires Valid()
      modifies this`mapInfo
      ensures Valid()
      ensures B() == match old(Find(x.ip))
        case None => old(B())
        case Some(id) =>
          var y := old(mapInfo[id]);
          if y.address.service == x && time - y.address.time > 20 * 60
          then WithInfo(old(B()), id, y.(address := y.address.(time := time))) else old(B())
    {
      var id := Find(x.ip);
      if id == None || mapInfo[id.value].address.service != x {
        return;
      }
      var y := mapInfo[id.value];
      if time - y.address.time > 20 * 60 {
        assert EntryOk(B(), {}, id.value);
        WithInfoKeeps(B(), h, {}, 0, id.value, y.(address := y.address.(time := time)));
        ghost var b' := WithInfo(B(), id.value, y.(address := y.address.(time := time)));
        mapInfo := mapInfo[id.value := y.(address := y.address.(time := time))];
        assert B() == b';
      }
    }

    /** One draw of GetAddr_: a random one of the ids not drawn yet moves to position n. */
    method Draw(n: nat, pos: nat)
      requires Valid() && n <= pos < |vRandom|
      modifies this`mapInfo, this`vRandom
      ensures Valid() && |vRandom| == |old(vRandom)| && vRandom[..n] == old(vRandom[..n])
      ensures vRandom[n] == old(vRandom[pos]) && SameEntries(old(B()), B())
    {
      ghost var b := B();
      SwapKeeps(b, h, {}, 0, n, pos);
      SwapRandomOk(b, n, pos);
      SwapRandom(n, pos);
    }

    /** Only vRandom's order changed, and the positions that go with it. */
    static ghost predicate SameEntries(b: Book, b': Book) {
      SameTables(b, b') && forall id :: id in b.info ==> b'.info[id] == b.info[id].(randomPos := b'.info[id].randomPos)
    }

    static ghost predicate Offered(b: Book, id: int, a: Address, now: int) {
      id in b.info && a == b.info[id].address && !IsTerrible(b.info[id], now)
    }

    /** The entries that may be handed out. */
    static ghost function Usable(b: Book, now: int): set<int> {
      set id | id in b.info && !IsTerrible(b.info[id], now)
    }

    /** One iteration of GetAddr_: the entry drawn, and its address unless it is terrible. */
    method Consider(n: nat, pos: nat, now: int, ghost start: Book) returns (a: Option<Address>, ghost id: int)
      requires Valid() && n <= pos < |vRandom| && SameEntries(start, B())
      modifies this`mapInfo, this`vRandom
      ensures Valid() && SameEntries(start, B()) && |vRandom| == |old(vRandom)|
      ensures vRandom[..n + 1] == old(vRandom[..n]) + [id] && id !in old(vRandom[..n])
      ensures if a.Some? then Offered(start, id, a.value, now) else id !in Usable(start, now)
    {
      hide IsTerrible, IdsOk, EntriesOk, TablesOk, CountsOk, Occupied;
      Draw(n, pos);
      NotDrawnTwice(B(), n);
      id := vRandom[n];
      SameQuality(start.info[id], mapInfo[id], now);
      a := if IsTerrible(mapInfo[vRandom[n]], now) then None else Some(mapInfo[vRandom[n]].address);
      assert vRandom[..n + 1] == vRandom[..n] + [id];
    }

    /**
     GetAddr_: 23% of the book, but at most 2500 addresses, of pairwise distinct entries that are not
     terrible, or all of these if they are fewer.  The book only changes the order of vRandom.
     */
    method GetAddr(pick: nat -> nat, now: int) returns (addrs: seq<Address>, ghost drawn: seq<int>)
      requires Valid() && forall n: nat :: n < |vRandom| ==> n <= pick(n) < |vRandom|
      modifies this`mapInfo, this`vRandom
      ensures Valid() && SameEntries(old(B()), B())
      ensures |drawn| == |addrs| && forall i, j :: 0 <= i < j < |drawn| ==> drawn[i] != drawn[j]
      ensures forall i :: 0 <= i < |drawn| ==> Offered(old(B()), drawn[i], addrs[i], now)
      ensures var limit := if 23 * |old(mapInfo)| / 100 < 2500 then 23 * |old(mapInfo)| / 100 else 2500;
        |addrs| == if limit <= |Usable(old(B()), now)| then limit else |Usable(old(B()), now)|
    {
      hide IsTerrible, IdsOk, EntriesOk, TablesOk, CountsOk, Occupied, SameEntries, RandomOk;
      ghost var start := B();
      RandomSize(start);
      SameAsBefore(start);
      var nodes := GETADDR_MAX_PCT * |vRandom| / 100;
      if nodes > GETADDR_MAX {
        nodes := GETADDR_MAX;
      }
      addrs, drawn := [], [];
      var n := 0;
      while n < |vRandom| && |addrs| < nodes
        invariant Valid() && SameEntries(start, B()) && |vRandom| == |start.random| && n <= |vRandom|
        invariant |drawn| == |addrs| <= nodes
        invariant forall i :: 0 <= i < |drawn| ==> drawn[i] in vRandom[..n]
        invariant forall i, j :: 0 <= i < j < |drawn| ==> drawn[i] != drawn[j]
        invariant forall i :: 0 <= i < |drawn| ==> Offered(start, drawn[i], addrs[i], now)
        invariant forall id :: id in vRandom[..n] && id in Usable(start, now) ==> id in drawn
      {
        ghost var id;
        var a;
        a, id := Consider(n, pick(n), now, start);
        if a.Some? {
          addrs := addrs + [a.value];
          drawn := drawn + [id];
        }
        n := n + 1;
      }
      HowMany(start, B(), n, nodes, drawn, now);
    }

    static lemma SameAsBefore(b: Book)
      ensures SameEntries(b, b)
    {
    }

    /** The loop ends with enough addresses or when it has seen the whole book. */
    static lemma HowMany(b: Book, b': Book, n: nat, nodes: nat, drawn: seq<int>, now: int)
      requires RandomOk(b') && SameEntries(b, b') && n <= |b'.random| && (n == |b'.random| || |drawn| >= nodes)
      requires |drawn| <= nodes && forall i, j :: 0 <= i < j < |drawn| ==> drawn[i] != drawn[j]
      requires forall i :: 0 <= i < |drawn| ==> drawn[i] in Usable(b, now)
      requires forall id :: id in b'.random[..n] && id in Usable(b, now) ==> id in drawn
      ensures |drawn| == if nodes <= |Usable(b, now)| then nodes else |Usable(b, now)|
    {
      hide IsTerrible;
      DistinctSize(drawn);
      var d := set x | x in drawn;
      SubsetSize(d, Usable(b, now));
      if |drawn| < nodes {
        forall id | id in Usable(b, now) ensures id in d {
          assert id in b'.info && PlaceOf(b', id);
          assert b'.random[..n][b'.info[id].randomPos] == id;
        }
        SubsetSize(Usable(b, now), d);
      }
    }

    static lemma SameQuality(x: Info, y: Info, now: int)
      requires y == x.(randomPos := y.randomPos)
      ensures IsTerrible(x, now) == IsTerrible(y, now)
    {
    }

    static lemma NotDrawnTwice(b: Book, n: nat)
      requires RandomOk(b) && n < |b.random|
      ensures b.random[n] in b.info && b.random[n] !in b.random[..n]
    {
      assert IdIn(b, n);
      forall i | 0 <= i < n ensures b.random[i] != b.random[n] { assert IdIn(b, i); }
    }
  }
}
