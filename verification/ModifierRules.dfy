/**
 The next stake modifier in terms of the branch itself: which heights the rounds pick, by which
 numbers they compare them, and whose bits the modifier has (src/kernel.cpp).
 */
module ModifierRules {
  import opened Wrappers
  import opened Positional
  import opened StakeModifier

  /** By time, and by hash among blocks of the same time. */
  predicate Sooner(a: Block, b: Block) {
    a.time < b.time || (a.time == b.time && a.hash < b.hash)
  }

  /** Neither block x nor any block above it is older than start. */
  predicate Candidate(c: Branch, start: int, x: nat) {
    x < |c| && forall y :: x <= y < |c| ==> c[y].time >= start
  }

  predicate Left(c: Branch, start: int, hs: seq<nat>, x: nat) {
    Candidate(c, start, x) && x !in hs
  }

  /** The first candidate left. */
  ghost predicate Soonest(c: Branch, start: int, hs: seq<nat>, x: nat) {
    && Left(c, start, hs, x)
    && forall y: nat {:trigger Left(c, start, hs, y)} :: Left(c, start, hs, y) && y != x ==> Sooner(c[x], c[y])
  }

  ghost predicate InTime(c: Branch, start: int, hs: seq<nat>, stop: int, x: nat) {
    Left(c, start, hs, x) && (c[x].time <= stop || Soonest(c, start, hs, x))
  }

  /**
   a goes before b.  Each is compared by the hash of its own hash and the previous modifier, of zero in
   place of its own hash if it is proof of stake and the upgrade is not reached; that of a
   proof-of-stake block counts by its multiples of 2^32.
   */
  ghost predicate Beats(a: Block, b: Block, v2: bool, m: nat, p: Params) {
    var x := p.hash(if a.stake && !v2 then 0 else a.hash, m);
    var y := p.hash(if b.stake && !v2 then 0 else b.hash, m);
    var u, v := if a.stake then x / 4294967296 else x, if b.stake then y / 4294967296 else y;
    u < v || (u == v && Sooner(a, b))
  }

  /** Round k picks the block in time that goes before all others in time. */
  ghost predicate Picked(c: Branch, start: int, hs: seq<nat>, k: nat, stop: int, v2: bool, m: nat, p: Params)
    requires k < |hs|
  {
    && InTime(c, start, hs[..k], stop, hs[k])
    && forall y: nat {:trigger InTime(c, start, hs[..k], stop, y)} ::
         InTime(c, start, hs[..k], stop, y) && y != hs[k] ==> Beats(c[hs[k]], c[y], v2, m, p)
  }

  /** Round k picks up to the end of section k, and bit k of the modifier is the lowest of that block's hash. */
  ghost predicate Round(c: Branch, start: int, hs: seq<nat>, k: nat, v2: bool, m: nat, modifier: nat, p: Params)
    requires k < |hs|
  {
    && hs[k] < |c| && modifier / Pow(2, k) % 2 == c[hs[k]].hash % 2
    && Picked(c, start, hs, k, start + SectionsUpTo(Lesser(k + 1, 64)), v2, m, p)
  }

  /**
   The heights hs that the rounds pick, given the previous modifier m, and the modifier of their blocks'
   bits.  The height of the first candidate tells whether the upgrade is reached.
   */
  ghost predicate MadeOf(c: Branch, p: Params, m: nat, modifier: nat, hs: seq<nat>)
    requires c != []
  {
    var start := c[|c| - 1].time / 60 * 60 - 2087;
    var v2 := exists e: nat {:trigger Soonest(c, start, [], e)} :: Soonest(c, start, [], e) && e >= p.upgrade;
    && |hs| <= 64 && (|hs| == 64 || forall x: nat {:trigger Left(c, start, hs, x)} :: !Left(c, start, hs, x))
    && modifier < Pow(2, |hs|)
    && forall k {:trigger Round(c, start, hs, k, v2, m, modifier, p)} :: 0 <= k < |hs| ==>
         Round(c, start, hs, k, v2, m, modifier, p)
  }

  ghost predicate LastGenerator(c: Branch, g: nat) {
    g < |c| && c[g].generated && forall i :: g < i < |c| ==> !c[i].generated
  }

  /** No new modifier as long as the last was generated in the same minute as the tip, or later. */
  ghost predicate FollowsFrom(c: Branch, p: Params, g: nat, modifier: nat, generated: bool, hs: seq<nat>)
    requires g < |c|
  {
    if c[g].time / 60 >= c[|c| - 1].time / 60 then modifier == c[g].modifier && !generated
    else generated && MadeOf(c, p, c[g].modifier, modifier, hs)
  }

  /** The modifier for a block on top of c, and whether it is a new one. */
  ghost predicate Rule(c: Branch, p: Params, modifier: nat, generated: bool, hs: seq<nat>) {
    if c == [] then modifier == 0 && generated
    else if |c| == 1 then modifier == p.first && generated
    else exists g: nat {:trigger LastGenerator(c, g)} ::
      LastGenerator(c, g) && FollowsFrom(c, p, g, modifier, generated, hs)
  }

  // ----- The sections -----

  /** Section n is 3780 seconds divided by 189 - 2n, rounded down. */
  lemma SectionIs(n: nat)
    requires n < 64
    ensures var d := 189 - 2 * n; Section(n) * d <= 3780 < (Section(n) + 1) * d
  {
    var d := 63 + (63 - n) * 2;
    assert MODIFIER_INTERVAL * 63 == 3780 && d == 189 - 2 * n;
    assert Section(n) == 3780 / d;
    DivMod(3780, d);
    assert (3780 / d + 1) * d == 3780 / d * d + d;
  }

  lemma NoMore(w: nat, v: nat, d: nat, n: nat)
    requires w * d <= n < (v + 1) * d
    ensures w <= v
  {
    if w >= v + 1 { MulMono(w, v + 1, d); }
  }

  lemma SectionSeconds(n: nat, v: nat)
    requires n < 64 && v * (189 - 2 * n) <= 3780 < (v + 1) * (189 - 2 * n)
    ensures Section(n) == v
  {
    hide Section;
    SectionIs(n);
    NoMore(Section(n), v, 189 - 2 * n, 3780);
    NoMore(v, Section(n), 189 - 2 * n, 3780);
  }

  /** v is section n. */
  predicate Fits(n: nat, v: nat)
    requires n < 64
  {
    v * (189 - 2 * n) <= 3780 < (v + 1) * (189 - 2 * n)
  }

  lemma FourSections(k: nat, sum: nat, v0: nat, v1: nat, v2: nat, v3: nat)
    requires k <= 60 && SectionsUpTo(k) == sum && Fits(k, v0) && Fits(k + 1, v1) && Fits(k + 2, v2) && Fits(k + 3, v3)
    ensures SectionsUpTo(k + 4) == sum + v0 + v1 + v2 + v3
  {
    hide Section;
    SectionSeconds(k, v0);
    SectionSeconds(k + 1, v1);
    SectionSeconds(k + 2, v2);
    SectionSeconds(k + 3, v3);
    assert SectionsUpTo(k + 2) == sum + Section(k) + Section(k + 1);
  }

  lemma NoSections()
    ensures SectionsUpTo(0) == 0
  {
  }

  lemma HalfTheSections()
    ensures SectionsUpTo(32) == 762
  {
    hide Section, SectionsUpTo;
    NoSections();
    FourSections(0, 0, 20, 20, 20, 20);
    FourSections(4, 80, 20, 21, 21, 21);
    FourSections(8, 163, 21, 22, 22, 22);
    FourSections(12, 250, 22, 23, 23, 23);
    FourSections(16, 341, 24, 24, 24, 25);
    FourSections(20, 438, 25, 25, 26, 26);
    FourSections(24, 540, 26, 27, 27, 28);
    FourSections(28, 648, 28, 28, 29, 29);
  }

  /** All sections together are 2087 seconds. */
  lemma AllSections()
    ensures SectionsUpTo(64) == 2087
  {
    hide Section, SectionsUpTo;
    HalfTheSections();
    FourSections(32, 762, 30, 30, 31, 31);
    FourSections(36, 884, 32, 32, 33, 34);
    FourSections(40, 1015, 34, 35, 36, 36);
    FourSections(44, 1156, 37, 38, 38, 39);
    FourSections(48, 1308, 40, 41, 42, 43);
    FourSections(52, 1474, 44, 45, 46, 47);
    FourSections(56, 1656, 49, 50, 51, 53);
    FourSections(60, 1859, 54, 56, 58, 60);
  }

  // ----- Places among the candidates and heights -----

  /** The candidates are the blocks of these heights, in the order of Sooner. */
  ghost predicate Lists(c: Branch, start: int, s: seq<Block>) {
    && Distinct(c) && (forall i, j :: 0 <= i < j < |s| ==> Sooner(s[i], s[j]))
    && (forall x: nat {:trigger Candidate(c, start, x)} :: Candidate(c, start, x) ==> c[x] in s)
    && (forall i {:trigger FromHeight(c, start, s[i])} :: 0 <= i < |s| ==> FromHeight(c, start, s[i]))
  }

  ghost predicate FromHeight(c: Branch, start: int, b: Block) {
    exists x: nat {:trigger Candidate(c, start, x)} :: Candidate(c, start, x) && c[x] == b
  }

  /** The candidates collected are those from the first one on. */
  lemma CandidateRange(c: Branch, start: int, x: nat)
    requires c != []
    ensures Candidate(c, start, x) <==> FirstCandidate(c, |c| - 1, start) <= x < |c|
  {
    var f := FirstCandidate(c, |c| - 1, start);
    if x < f && Candidate(c, start, x) { assert false; }
  }

  lemma SortedIsSooner(s: seq<Block>)
    requires Sorted(s)
    ensures forall i, j :: 0 <= i < j < |s| ==> Sooner(s[i], s[j])
  {
    assert forall a, b {:trigger Earlier(a, b)} :: Earlier(a, b) ==> Sooner(a, b);
  }

  lemma CandidatesListed(c: Branch, start: int)
    requires Distinct(c) && c != []
    ensures Lists(c, start, SortedRange(c, FirstCandidate(c, |c| - 1, start), |c|))
  {
    hide Candidate, Sooner, Sorted, Distinct, FirstCandidate, SortedRange;
    var f := FirstCandidate(c, |c| - 1, start);
    var s := SortedRange(c, f, |c|);
    SortedRangeOk(c, f, |c|);
    SortedIsSooner(s);
    forall x: nat | Candidate(c, start, x) ensures x < |c| && c[x] in s { CandidateRange(c, start, x); }
    forall i | 0 <= i < |s| ensures FromHeight(c, start, s[i]) {
      assert s[i] in s;
      var x :| f <= x < |c| && c[x] == s[i];
      CandidateRange(c, start, x);
    }
  }

  lemma HeightListed(c: Branch, start: int, s: seq<Block>, i: nat)
    requires Lists(c, start, s) && i < |s|
    ensures var x := HeightOf(c, s[i], |c|); Candidate(c, start, x) && c[x] == s[i]
  {
    assert FromHeight(c, start, s[i]);
    var x: nat :| Candidate(c, start, x) && c[x] == s[i];
    assert c[..|c|] == c && c[x] in c;
  }

  lemma PlaceListed(c: Branch, start: int, s: seq<Block>, x: nat) returns (i: nat)
    requires Lists(c, start, s) && Candidate(c, start, x)
    ensures i < |s| && s[i] == c[x] && HeightOf(c, s[i], |c|) == x
  {
    assert c[x] in s;
    i :| 0 <= i < |s| && s[i] == c[x];
    HeightListed(c, start, s, i);
  }

  /** The heights of the picked places. */
  function Heights(c: Branch, s: seq<Block>, picks: seq<nat>): (hs: seq<nat>)
    ensures |hs| == |picks|
    ensures forall k :: 0 <= k < |hs| ==> hs[k] == if picks[k] < |s| then HeightOf(c, s[picks[k]], |c|) else 0
  {
    seq(|picks|, k requires 0 <= k < |picks| => if picks[k] < |s| then HeightOf(c, s[picks[k]], |c|) else 0)
  }

  lemma HeightsPrefix(c: Branch, s: seq<Block>, picks: seq<nat>, k: nat)
    requires k <= |picks|
    ensures Heights(c, s, picks)[..k] == Heights(c, s, picks[..k])
  {
  }

  lemma SamePlace(c: Branch, start: int, s: seq<Block>, i: nat, j: nat)
    requires Lists(c, start, s) && i < |s| && j < |s|
    ensures HeightOf(c, s[i], |c|) == HeightOf(c, s[j], |c|) <==> i == j
  {
    HeightListed(c, start, s, i);
    HeightListed(c, start, s, j);
    if i < j { assert Sooner(s[i], s[j]); }
    if j < i { assert Sooner(s[j], s[i]); }
  }

  lemma UnselectedIsLeft(c: Branch, start: int, s: seq<Block>, picks: seq<nat>, i: nat)
    requires Lists(c, start, s) && i < |s| && forall k :: 0 <= k < |picks| ==> picks[k] < |s|
    ensures Left(c, start, Heights(c, s, picks), HeightOf(c, s[i], |c|)) <==> Unselected(s, picks, i)
  {
    hide Lists, Candidate;
    var hs, x := Heights(c, s, picks), HeightOf(c, s[i], |c|);
    HeightListed(c, start, s, i);
    if x in hs {
      var k :| 0 <= k < |hs| && hs[k] == x;
      SamePlace(c, start, s, picks[k], i);
      assert picks[k] in picks;
    }
    if i in picks {
      var k :| 0 <= k < |picks| && picks[k] == i;
      assert hs[k] in hs;
    }
  }

  /** A place is before another iff its block is sooner. */
  lemma PlaceOrder(c: Branch, start: int, s: seq<Block>, i: nat, j: nat)
    requires Lists(c, start, s) && i < |s| && j < |s|
    ensures i < j <==> Sooner(s[i], s[j])
  {
    if i < j { assert Sooner(s[i], s[j]); }
    if j < i { assert Sooner(s[j], s[i]); }
  }

  lemma LeftAfterFirst(c: Branch, start: int, s: seq<Block>, picks: seq<nat>, i: nat, y: nat)
    requires Lists(c, start, s) && i < |s| && forall k :: 0 <= k < |picks| ==> picks[k] < |s|
    requires forall j :: 0 <= j < i ==> !Unselected(s, picks, j)
    requires Left(c, start, Heights(c, s, picks), y) && y != HeightOf(c, s[i], |c|)
    ensures y < |c| && Sooner(s[i], c[y])
  {
    hide Lists, Sooner, Unselected;
    var j := PlaceListed(c, start, s, y);
    UnselectedIsLeft(c, start, s, picks, j);
    PlaceOrder(c, start, s, i, j);
  }

  lemma NoneBefore(c: Branch, start: int, s: seq<Block>, picks: seq<nat>, i: nat, j: nat)
    requires Lists(c, start, s) && j < i < |s| && forall k :: 0 <= k < |picks| ==> picks[k] < |s|
    requires Soonest(c, start, Heights(c, s, picks), HeightOf(c, s[i], |c|))
    ensures !Unselected(s, picks, j)
  {
    hide Lists, Candidate, Sooner, Unselected;
    UnselectedIsLeft(c, start, s, picks, j);
    HeightListed(c, start, s, i);
    HeightListed(c, start, s, j);
    PlaceOrder(c, start, s, i, j);
    SamePlace(c, start, s, i, j);
  }

  lemma FirstIsSoonest(c: Branch, start: int, s: seq<Block>, picks: seq<nat>, i: nat)
    requires Lists(c, start, s) && i < |s| && forall k :: 0 <= k < |picks| ==> picks[k] < |s|
    requires Unselected(s, picks, i)
    ensures Soonest(c, start, Heights(c, s, picks), HeightOf(c, s[i], |c|)) <==>
      forall j :: 0 <= j < i ==> !Unselected(s, picks, j)
  {
    hide Lists, Sooner, Unselected, Left;
    var hs, x := Heights(c, s, picks), HeightOf(c, s[i], |c|);
    HeightListed(c, start, s, i);
    UnselectedIsLeft(c, start, s, picks, i);
    if forall j :: 0 <= j < i ==> !Unselected(s, picks, j) {
      forall y: nat | Left(c, start, hs, y) && y != x ensures y < |c| && Sooner(c[x], c[y]) {
        LeftAfterFirst(c, start, s, picks, i, y);
      }
    }
    if Soonest(c, start, hs, x) {
      forall j | 0 <= j < i ensures !Unselected(s, picks, j) { NoneBefore(c, start, s, picks, i, j); }
    }
  }

  lemma EligibleIsInTime(c: Branch, start: int, s: seq<Block>, picks: seq<nat>, stop: int, i: nat)
    requires Lists(c, start, s) && i < |s| && forall k :: 0 <= k < |picks| ==> picks[k] < |s|
    ensures InTime(c, start, Heights(c, s, picks), stop, HeightOf(c, s[i], |c|)) <==> Eligible(s, picks, stop, i)
  {
    hide Lists, Candidate, Sooner, Soonest;
    HeightListed(c, start, s, i);
    UnselectedIsLeft(c, start, s, picks, i);
    if Unselected(s, picks, i) { FirstIsSoonest(c, start, s, picks, i); }
  }

  /** The number a block is compared by. */
  lemma BeatsByNumber(a: Block, b: Block, v2: bool, m: nat, p: Params)
    ensures Beats(a, b, v2, m, p) <==>
      || SelectionHash(a, v2, m, p) < SelectionHash(b, v2, m, p)
      || (SelectionHash(a, v2, m, p) == SelectionHash(b, v2, m, p) && Sooner(a, b))
  {
  }

  lemma PickIsPicked(c: Branch, start: int, s: seq<Block>, picks: seq<nat>, k: nat, stop: int, v2: bool, m: nat,
                     p: Params)
    requires Lists(c, start, s) && k < |picks| && forall i :: 0 <= i < |picks| ==> picks[i] < |s|
    requires IsPick(s, picks[..k], stop, v2, m, p, picks[k])
    ensures Picked(c, start, Heights(c, s, picks), k, stop, v2, m, p)
  {
    hide Lists, Sooner, Soonest, Eligible, Beats, SelectionHash;
    var hs := Heights(c, s, picks);
    HeightsPrefix(c, s, picks, k);
    EligibleIsInTime(c, start, s, picks[..k], stop, picks[k]);
    HeightListed(c, start, s, picks[k]);
    forall y: nat | InTime(c, start, hs[..k], stop, y) && y != hs[k] ensures Beats(c[hs[k]], c[y], v2, m, p) {
      InTimeIsCandidate(c, start, hs[..k], stop, y);
      var j := PlaceListed(c, start, s, y);
      EligibleIsInTime(c, start, s, picks[..k], stop, j);
      BeatsByNumber(s[picks[k]], s[j], v2, m, p);
      PlaceOrder(c, start, s, picks[k], j);
    }
  }

  lemma InTimeIsCandidate(c: Branch, start: int, hs: seq<nat>, stop: int, y: nat)
    requires InTime(c, start, hs, stop, y)
    ensures Candidate(c, start, y)
  {
  }

  // ----- The upgrade -----

  lemma UpgradeByHeight(c: Branch, start: int, s: seq<Block>, p: Params)
    requires Lists(c, start, s)
    ensures UsesV2(c, s, p) <==>
      exists e: nat {:trigger Soonest(c, start, [], e)} :: Soonest(c, start, [], e) && e >= p.upgrade
  {
    hide Lists, Candidate, Sooner, Soonest;
    assert Heights(c, s, []) == [];
    if s != [] {
      FirstIsSoonest(c, start, s, [], 0);
    }
    forall e: nat | Soonest(c, start, [], e) ensures s != [] && e == HeightOf(c, s[0], |c|) {
      SoonestIsCandidate(c, start, [], e);
      var i := PlaceListed(c, start, s, e);
      FirstIsSoonest(c, start, s, [], i);
      assert Unselected(s, [], 0);
    }
  }

  lemma SoonestIsCandidate(c: Branch, start: int, hs: seq<nat>, e: nat)
    requires Soonest(c, start, hs, e)
    ensures Candidate(c, start, e)
  {
  }

  // ----- The bits -----

  lemma {:induction false} BitAt(s: seq<Block>, picks: seq<nat>, n: nat, k: nat)
    requires n <= |picks| && k < n && forall i :: 0 <= i < n ==> picks[i] < |s|
    ensures Bits(s, picks, n) / Pow(2, k) % 2 == s[picks[k]].hash % 2
    decreases n
  {
    var e := EntropyBit(s[picks[n - 1]]);
    var low := Bits(s, picks, n - 1);
    BitsFit(s, picks, n - 1);
    if k == n - 1 {
      QuotientOf(low, e, Pow(2, k));
    } else {
      BitAt(s, picks, n - 1, k);
      PowSum(2, k + 1, n - 2 - k);
      HigherBit(low, e * Pow(2, n - 2 - k), Pow(2, k));
      assert e * Pow(2, n - 1) == e * Pow(2, n - 2 - k) * (2 * Pow(2, k)) by {
        Regroup(e, Pow(2, n - 2 - k), Pow(2, k + 1), Pow(2, n - 1));
      }
    }
  }

  lemma Regroup(e: nat, a: nat, b: nat, ab: nat)
    requires ab == b * a
    ensures e * ab == e * a * b
  {
  }

  lemma QuotientOf(low: nat, e: nat, d: nat)
    requires low < d && e < 2
    ensures (low + e * d) / d % 2 == e
  {
    if e == 0 {
      assert low / d == 0;
    } else {
      assert (low + d) / d == 1;
    }
  }

  lemma HigherBit(low: nat, z: nat, d: nat)
    requires d > 0
    ensures (low + z * (2 * d)) / d % 2 == low / d % 2
  {
    var q, r := low / d, low % d;
    assert low == q * d + r;
    Spread(z, d);
    Gathered(q, 2 * z, d);
    DivAdd(q, d, r);
    DivAdd(q + 2 * z, d, r);
  }

  lemma Spread(z: nat, d: nat)
    ensures z * (2 * d) == 2 * z * d
  {
  }

  lemma Gathered(q: nat, z: nat, d: nat)
    ensures q * d + z * d == (q + z) * d
  {
  }

  // ----- The rule -----

  lemma RoundsArePicked(c: Branch, start: int, p: Params, v2: bool, m: nat, s: seq<Block>, picks: seq<nat>, n: nat,
                        k: nat)
    requires Lists(c, start, s) && Selection(s, picks, start, v2, m, p, n) && k < n
    ensures k < |picks| && Round(c, start, Heights(c, s, picks), k, v2, m, Bits(s, picks, n), p)
  {
    hide Lists, IsPick, Picked, SectionsUpTo, Bits, Pow;
    SelectionDistinct(s, picks, start, v2, m, p, n);
    assert RoundOk(s, picks, start, v2, m, p, k);
    PickIsPicked(c, start, s, picks, k, start + SectionsUpTo(k + 1), v2, m, p);
    HeightListed(c, start, s, picks[k]);
    BitAt(s, picks, n, k);
  }

  lemma SelectionIsMadeOf(c: Branch, p: Params, m: nat, s: seq<Block>, picks: seq<nat>, n: nat)
    requires c != [] && Distinct(c) && s == Candidates(c, |c| - 1) && n == Lesser(ROUNDS, |s|)
    requires Selection(s, picks, IntervalStart(c[|c| - 1].time), UsesV2(c, s, p), m, p, n)
    ensures MadeOf(c, p, m, Bits(s, picks, n), Heights(c, s, picks))
  {
    hide Lists, Selection, Round, Candidates, UsesV2, Left, SectionsUpTo, Soonest, Bits, Pow, Distinct;
    var start, v2, hs := IntervalStart(c[|c| - 1].time), UsesV2(c, s, p), Heights(c, s, picks);
    StartOf(c[|c| - 1].time);
    SelectionSize(s, picks, start, v2, m, p, n);
    SelectionDistinct(s, picks, start, v2, m, p, n);
    CandidatesAreListed(c, s);
    UpgradeByHeight(c, start, s, p);
    BitsFit(s, picks, n);
    forall k | 0 <= k < n ensures Round(c, start, hs, k, v2, m, Bits(s, picks, n), p) {
      RoundsArePicked(c, start, p, v2, m, s, picks, n, k);
    }
    if n < 64 {
      forall x: nat ensures !Left(c, start, hs, x) { NoneLeft(c, start, s, picks, x); }
    }
  }

  lemma StartOf(time: nat)
    ensures IntervalStart(time) == time / 60 * 60 - 2087
  {
    hide SectionsUpTo;
    AllSections();
  }

  lemma CandidatesAreListed(c: Branch, s: seq<Block>)
    requires c != [] && Distinct(c) && s == Candidates(c, |c| - 1)
    ensures Lists(c, IntervalStart(c[|c| - 1].time), s)
  {
    CandidatesListed(c, IntervalStart(c[|c| - 1].time));
  }

  /** As many rounds as candidates leave none. */
  lemma NoneLeft(c: Branch, start: int, s: seq<Block>, picks: seq<nat>, x: nat)
    requires Lists(c, start, s) && |picks| == |s|
    requires forall i, j :: 0 <= i < j < |picks| ==> picks[i] != picks[j]
    requires forall k :: 0 <= k < |picks| ==> picks[k] < |s|
    ensures !Left(c, start, Heights(c, s, picks), x)
  {
    hide Lists, Candidate;
    if Left(c, start, Heights(c, s, picks), x) {
      LeftIsCandidate(c, start, Heights(c, s, picks), x);
      var i := PlaceListed(c, start, s, x);
      UnselectedIsLeft(c, start, s, picks, i);
      ElementsSize(picks);
      assert Elements(picks) <= FirstN(|s|) - {i};
      SubsetSize(Elements(picks), FirstN(|s|) - {i});
      assert false;
    }
  }

  lemma LeftIsCandidate(c: Branch, start: int, hs: seq<nat>, x: nat)
    requires Left(c, start, hs, x)
    ensures Candidate(c, start, x)
  {
  }

  lemma {:induction false} ElementsSize(a: seq<nat>)
    requires forall i, j :: 0 <= i < j < |a| ==> a[i] != a[j]
    ensures |Elements(a)| == |a|
    decreases |a|
  {
    if a != [] {
      ElementsSize(a[..|a| - 1]);
      assert a[|a| - 1] !in a[..|a| - 1];
    }
  }

  /** What ComputeNextStakeModifier answers follows the rule. */
  lemma NextFollowsRule(c: Branch, p: Params, modifier: nat, generated: bool, picks: seq<nat>)
    returns (hs: seq<nat>)
    requires Built(c, p) && Next(c, p, modifier, generated, picks)
    ensures Rule(c, p, modifier, generated, hs)
  {
    hide Selection, MadeOf, Candidates, BuiltAt;
    hs := [];
    if |c| > 1 {
      var h := |c| - 1;
      var g := Generator(c, h);
      FirstGenerates(c, p);
      assert LastGenerator(c, g);
      if generated {
        var s := Candidates(c, h);
        SelectionIsMadeOf(c, p, c[g].modifier, s, picks, Lesser(ROUNDS, |s|));
        hs := Heights(c, s, picks);
      }
    }
  }

  /**
   Proof of stake is favoured: a round in which a proof-of-stake block whose hash with the previous
   modifier is x is left and in time picks no proof-of-work block with a hash above x / 2^32.
   */
  lemma StakeFavoured(c: Branch, start: int, hs: seq<nat>, k: nat, stop: int, v2: bool, m: nat, p: Params, y: nat)
    requires k < |hs| && Picked(c, start, hs, k, stop, v2, m, p)
    requires Left(c, start, hs[..k], y) && c[y].time <= stop && c[y].stake
    ensures hs[k] < |c| && (!c[hs[k]].stake ==>
      p.hash(c[hs[k]].hash, m) <= p.hash(if v2 then c[y].hash else 0, m) / 0x1_0000_0000)
  {
    assert InTime(c, start, hs[..k], stop, y);
  }
}
