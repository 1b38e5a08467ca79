/** Whole runs of the address manager: any operations in any order, with Check_ after each (src/addrman.cpp). */
module AddrRuns {
  import opened AddrModel
  import opened AddrOps
  import opened AddrManager
  import opened AddrCheck
  import opened AddrTimes

  /** The public operations with their clocks, random draws and tests of the address. */
  datatype Op =
    | Add(a: Address, source: NetAddr, penalty: int, now: int, routable: bool, lucky: bool)
    | Good(x: Service, time: int, rnd: nat)
    | Attempt(x: Service, time: int)
    | Connected(x: Service, time: int)
    | GetAddr(pick: nat -> nat, now: int)

  /** GetRandInt stays in its range: all that the source makes sure of. */
  ghost predicate Possible(op: Op) {
    op.Good? ==> op.rnd < NEW_BUCKET_COUNT
  }

  /** The operation's time is one that Check_ accepts in the entry it hits. */
  ghost predicate TimeFits(b: Book, op: Op) {
    match op
    case Good(x, time, _) => Hits(b, x) ==> time > 0
    case Attempt(x, time) => Hits(b, x) ==> time >= 0
    case _ => true
  }

  /** No operation has a time before the epoch, and no success is at the epoch. */
  predicate TimeAlwaysFits(op: Op) {
    match op
    case Good(_, time, _) => time > 0
    case Attempt(_, time) => time >= 0
    case _ => true
  }

  /** GetRandInt stays in its range. */
  function InRange(pick: nat -> nat, size: nat): nat -> nat {
    (n: nat) => if n <= pick(n) < size then pick(n) else n
  }

  /** One operation keeps the invariant whatever its arguments are, and the times exactly when its own time fits. */
  method Apply(m: CAddrMan, op: Op)
    requires m.Valid() && Possible(op)
    modifies m, m.vvNew, m.vvTried
    ensures m.Valid()
    ensures old(TimesOk(m.B())) ==> (TimesOk(m.B()) <==> old(TimeFits(m.B(), op)))
    ensures op.Add? && op.a.service.ip in old(m.mapAddr) ==> op.a.service.ip in m.mapAddr
  {
    hide Consistent, TimesOk;
    ghost var b := m.B();
    match op
    case Add(a, source, penalty, now, routable, lucky) =>
      var _ := m.Add(a, source, penalty, now, routable, lucky);
      if TimesOk(b) { AddTimes(b, m.h, a, source, penalty, now, lucky); }
      if routable && a.service.ip in b.ids { KnownStays(b, m.h, a, source, penalty, now, lucky); }
    case Good(x, time, rnd) =>
      m.Good(x, time, rnd);
      if TimesOk(b) { GoodTimes(b, m.h, x, time); }
    case Attempt(x, time) =>
      AddressesKnown(b, m.h);
      m.Attempt(x, time);
      assert m.B() == Attempted(b, x, time);
      if TimesOk(b) { AttemptTimes(b, x, time); }
    case Connected(x, time) =>
      m.Connected(x, time);
      StatsOnly(b, m.B());
    case GetAddr(pick, now) =>
      var addrs, drawn := m.GetAddr(InRange(pick, |m.vRandom|), now);
      StatsOnly(b, m.B());
  }

  lemma AddressesKnown(b: Book, h: Hashes)
    requires Consistent(b, h)
    ensures forall a :: a in b.ids ==> b.ids[a] in b.info
  {
    forall a | a in b.ids ensures b.ids[a] in b.info { assert AddressAt(b, a); }
  }

  /** A change that touches no times keeps them in order. */
  lemma StatsOnly(b: Book, b': Book)
    requires Derived(b, b')
    ensures TimesOk(b) ==> TimesOk(b')
  {
    if TimesOk(b) { DerivedTimes(b, b'); }
  }

  /**
   Any sequence of operations keeps the invariant.  Every test of Check_ passes afterwards if and
   only if the times are in order, and they are when every operation's time always fits.
   */
  method Run(m: CAddrMan, ops: seq<Op>)
    requires m.Valid() && forall i :: 0 <= i < |ops| ==> Possible(ops[i])
    modifies m, m.vvNew, m.vvTried
    ensures m.Valid() && (Passes(m.B(), m.h) <==> TimesOk(m.B()))
    ensures old(TimesOk(m.B())) && (forall i :: 0 <= i < |ops| ==> TimeAlwaysFits(ops[i])) ==> Passes(m.B(), m.h)
  {
    hide Consistent, Passes, Possible, TimesOk, Hits;
    for i := 0 to |ops|
      invariant m.Valid()
      invariant old(TimesOk(m.B())) && (forall i :: 0 <= i < |ops| ==> TimeAlwaysFits(ops[i])) ==> TimesOk(m.B())
    {
      Apply(m, ops[i]);
    }
    PassesIffTimes(m.B(), m.h);
  }
}
