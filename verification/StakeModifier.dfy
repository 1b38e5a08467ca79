/** The stake modifier: which ancestors are selected and what their entropy bits make (src/kernel.cpp). */
module StakeModifier {
  import opened Wrappers
  import opened Positional

  const MODIFIER_INTERVAL: nat := 60
  const MODIFIER_INTERVAL_RATIO: nat := 3
  const ROUNDS: nat := 64

  /** A block index entry, as far as the modifier needs it.  Times are 32-bit and unsigned. */
  datatype Block = Block(hash: nat, time: nat, stake: bool, modifier: nat, generated: bool)

  function EntropyBit(b: Block): nat { b.hash % 2 }

  /**
   A branch of the block tree from genesis up; the place in it is the height and the entry before it
   is pprev.  Hashes are the keys of mapBlockIndex.
   */
  type Branch = seq<Block>

  predicate Distinct(c: Branch) {
    forall i, j :: 0 <= i < j < |c| ==> c[i].hash != c[j].hash
  }

  /**
   Hash of a proof and a modifier, the height from which on ModifierUpgradeBlock changes the proof,
   and the constant given to the first block: the source casts a string literal's address to it.
   */
  datatype Params = Params(hash: (nat, nat) -> nat, upgrade: nat, first: nat)

  // ----- The last modifier -----

  /** The height of the nearest entry from h down that generated its modifier. */
  function Generator(c: Branch, h: nat): (g: nat)
    requires h < |c|
    ensures g <= h && (g > 0 ==> c[g].generated) && forall i :: g < i <= h ==> !c[i].generated
    decreases h
  {
    if h == 0 || c[h].generated then h else Generator(c, h - 1)
  }

  /** GetLastStakeModifier. */
  method GetLastStakeModifier(c: Branch, h: nat) returns (r: Option<(nat, nat)>)
    requires h < |c|
    ensures var g := Generator(c, h); r == if c[g].generated then Some((c[g].modifier, c[g].time)) else None
  {
    var i := h;
    while i > 0 && !c[i].generated
      invariant 0 <= i <= h && Generator(c, i) == Generator(c, h)
    {
      i := i - 1;
    }
    if !c[i].generated {
      return None;
    }
    return Some((c[i].modifier, c[i].time));
  }

  // ----- Intervals -----

  /** GetStakeModifierSelectionIntervalSection. */
  function Section(n: nat): nat
    requires n < ROUNDS
  {
    MODIFIER_INTERVAL * 63 / (63 + (63 - n) * (MODIFIER_INTERVAL_RATIO - 1))
  }

  function SectionsUpTo(n: nat): nat
    requires n <= ROUNDS
    decreases n
  {
    if n == 0 then 0 else SectionsUpTo(n - 1) + Section(n - 1)
  }

  /** GetStakeModifierSelectionInterval. */
  method SelectionInterval() returns (n: nat)
    ensures n == SectionsUpTo(ROUNDS)
  {
    n := 0;
    for s := 0 to ROUNDS
      invariant n == SectionsUpTo(s)
    {
      n := n + Section(s);
    }
  }

  /** nSelectionIntervalStart for a block of the given time. */
  function IntervalStart(time: nat): int {
    time / MODIFIER_INTERVAL * MODIFIER_INTERVAL - SectionsUpTo(ROUNDS)
  }

  // ----- Candidates -----

  predicate Earlier(a: Block, b: Block) {
    a.time < b.time || (a.time == b.time && a.hash < b.hash)
  }

  /** sort() on the pairs of time and hash. */
  predicate Sorted(s: seq<Block>) {
    forall i, j :: 0 <= i < j < |s| ==> Earlier(s[i], s[j])
  }

  function Insert(s: seq<Block>, b: Block): seq<Block>
    decreases |s|
  {
    if s == [] || Earlier(s[|s| - 1], b) then s + [b] else Insert(s[..|s| - 1], b) + [s[|s| - 1]]
  }

  lemma {:induction false} InsertSorts(s: seq<Block>, b: Block)
    requires Sorted(s) && forall i :: 0 <= i < |s| ==> s[i].hash != b.hash
    ensures Sorted(Insert(s, b)) && |Insert(s, b)| == |s| + 1
    ensures forall x :: x in Insert(s, b) <==> x in s || x == b
    decreases |s|
  {
    if s != [] && !Earlier(s[|s| - 1], b) {
      var init, z := s[..|s| - 1], s[|s| - 1];
      InsertSorts(init, b);
      var r := Insert(init, b);
      assert s == init + [z];
      forall i | 0 <= i < |r| ensures Earlier(r[i], z) { assert r[i] in r; }
    }
  }

  /** The first height of the candidates below and including h: they reach back to the first entry before start. */
  function FirstCandidate(c: Branch, h: nat, start: int): (f: nat)
    requires h < |c|
    ensures f <= h + 1 && (forall i :: f <= i <= h ==> c[i].time >= start) && (f > 0 ==> c[f - 1].time < start)
    decreases h
  {
    if c[h].time < start then h + 1 else if h == 0 then 0 else FirstCandidate(c, h - 1, start)
  }

  /** c[from..end], sorted. */
  function SortedRange(c: Branch, from: nat, end: nat): seq<Block>
    requires from <= end <= |c|
    decreases end - from
  {
    if from == end then [] else Insert(SortedRange(c, from, end - 1), c[end - 1])
  }

  lemma {:induction false} SortedRangeOk(c: Branch, from: nat, end: nat)
    requires Distinct(c) && from <= end <= |c|
    ensures Sorted(SortedRange(c, from, end)) && |SortedRange(c, from, end)| == end - from
    ensures forall x :: x in SortedRange(c, from, end) <==> exists i :: from <= i < end && c[i] == x
    decreases end - from
  {
    if from < end {
      SortedRangeOk(c, from, end - 1);
      var s := SortedRange(c, from, end - 1);
      forall i | 0 <= i < |s| ensures s[i].hash != c[end - 1].hash { assert s[i] in s; }
      InsertSorts(s, c[end - 1]);
    }
  }

  /** The candidates for the modifier after height h. */
  function Candidates(c: Branch, h: nat): seq<Block>
    requires h < |c|
  {
    SortedRange(c, FirstCandidate(c, h, IntervalStart(c[h].time)), h + 1)
  }

  // ----- Selection -----

  /** hashSelection; a proof-of-stake block's is divided by 2^32. */
  function SelectionHash(b: Block, v2: bool, prevModifier: nat, p: Params): nat {
    var proof := if v2 then b.hash else if b.stake then 0 else b.hash;
    var x := p.hash(proof, prevModifier);
    if b.stake then x / 0x1_0000_0000 else x
  }

  predicate Unselected(s: seq<Block>, picks: seq<nat>, i: nat) {
    i < |s| && i !in picks
  }

  /** May be picked in a round up to stop: in time, or the first one left when none is in time. */
  predicate Eligible(s: seq<Block>, picks: seq<nat>, stop: int, i: nat) {
    && Unselected(s, picks, i)
    && (s[i].time <= stop || forall j :: 0 <= j < i ==> !Unselected(s, picks, j))
  }

  /** The eligible candidate with the least selection hash, the first of them if several have it. */
  ghost predicate IsPick(s: seq<Block>, picks: seq<nat>, stop: int, v2: bool, m: nat, p: Params, i: nat) {
    && Eligible(s, picks, stop, i)
    && forall j: nat {:trigger Eligible(s, picks, stop, j)} :: Eligible(s, picks, stop, j) ==>
         SelectionHash(s[i], v2, m, p) < SelectionHash(s[j], v2, m, p) ||
         (SelectionHash(s[i], v2, m, p) == SelectionHash(s[j], v2, m, p) && i <= j)
  }

  lemma PickIsUnique(s: seq<Block>, picks: seq<nat>, stop: int, v2: bool, m: nat, p: Params, i: nat, j: nat)
    requires IsPick(s, picks, stop, v2, m, p, i) && IsPick(s, picks, stop, v2, m, p, j)
    ensures i == j
  {
  }

  /** Only the first candidate left may be out of time. */
  lemma EligibleInOrder(s: seq<Block>, picks: seq<nat>, stop: int, first: nat, j: nat)
    requires Sorted(s) && Unselected(s, picks, first) && forall k :: 0 <= k < first ==> !Unselected(s, picks, k)
    ensures Eligible(s, picks, stop, j) <==> Unselected(s, picks, j) && (j == first || s[j].time <= stop)
  {
  }

  /** Proof of stake is favoured: what the division by 2^32 is for. */
  lemma StakeFirst(s: seq<Block>, picks: seq<nat>, stop: int, v2: bool, m: nat, p: Params, i: nat)
    requires IsPick(s, picks, stop, v2, m, p, i)
    ensures forall j: nat {:trigger Unselected(s, picks, j)} ::
      Unselected(s, picks, j) && s[j].time <= stop && s[j].stake && !s[i].stake ==>
      p.hash(s[i].hash, m) <= p.hash(if v2 then s[j].hash else 0, m) / 0x1_0000_0000
  {
    forall j: nat | Unselected(s, picks, j) && s[j].time <= stop && s[j].stake && !s[i].stake
      ensures p.hash(s[i].hash, m) <= p.hash(if v2 then s[j].hash else 0, m) / 0x1_0000_0000
    {
      assert Eligible(s, picks, stop, j);
    }
  }

  /**
   SelectBlockFromCandidates, with the height of the first candidate deciding the proof.  None is
   its false answer: nothing is left to select.
   */
  method SelectBlockFromCandidates(s: seq<Block>, picks: seq<nat>, stop: int, v2: bool, m: nat, p: Params)
    returns (r: Option<nat>)
    requires Sorted(s)
    ensures r == None ==> forall i: nat {:trigger Unselected(s, picks, i)} :: !Unselected(s, picks, i)
    ensures r.Some? ==> IsPick(s, picks, stop, v2, m, p, r.value)
    ensures r.Some? ==> forall j: nat {:trigger Unselected(s, picks, j)} ::
      Unselected(s, picks, j) && s[j].time <= stop && s[j].stake && !s[r.value].stake ==>
      p.hash(s[r.value].hash, m) <= p.hash(if v2 then s[j].hash else 0, m) / 0x1_0000_0000
  {
    var fSelected := false;
    var hashBest := 0;
    var selected := 0;
    ghost var first := 0;
    var i := 0;
    while i < |s|
      invariant 0 <= i <= |s|
      invariant !fSelected ==> forall j :: 0 <= j < i ==> !Unselected(s, picks, j)
      invariant fSelected ==>
        first < i && Unselected(s, picks, first) && forall j :: 0 <= j < first ==> !Unselected(s, picks, j)
      invariant fSelected ==> selected < i && hashBest == SelectionHash(s[selected], v2, m, p)
      invariant fSelected ==> Eligible(s, picks, stop, selected)
      invariant fSelected ==>
        forall j: nat {:trigger Eligible(s, picks, stop, j)} :: j < i && Eligible(s, picks, stop, j) ==>
        hashBest < SelectionHash(s[j], v2, m, p) || (hashBest == SelectionHash(s[j], v2, m, p) && selected <= j)
    {
      if fSelected && s[i].time > stop {
        forall j: nat | Eligible(s, picks, stop, j) ensures j < i { EligibleInOrder(s, picks, stop, first, j); }
        break;
      }
      if i !in picks {
        var hashSelection := SelectionHash(s[i], v2, m, p);
        if fSelected && hashSelection < hashBest {
          hashBest, selected := hashSelection, i;
        } else if !fSelected {
          first := i;
          fSelected := true;
          hashBest, selected := hashSelection, i;
        }
      }
      i := i + 1;
    }
    r := if fSelected then Some(selected) else None;
    if fSelected {
      assert IsPick(s, picks, stop, v2, m, p, selected);
      StakeFirst(s, picks, stop, v2, m, p, selected);
    }
  }

  function Lesser(a: nat, b: nat): nat { if a <= b then a else b }

  /** Round k picked its candidate from what the rounds before left, up to the end of its own section. */
  ghost predicate RoundOk(s: seq<Block>, picks: seq<nat>, start: int, v2: bool, m: nat, p: Params, k: nat)
    requires k < |picks| && k < ROUNDS
  {
    IsPick(s, picks[..k], start + SectionsUpTo(k + 1), v2, m, p, picks[k])
  }

  /** What n rounds select. */
  ghost predicate Selection(s: seq<Block>, picks: seq<nat>, start: int, v2: bool, m: nat, p: Params, n: nat) {
    |picks| == n && n <= ROUNDS &&
    forall k {:trigger RoundOk(s, picks, start, v2, m, p, k)} :: 0 <= k < n ==> RoundOk(s, picks, start, v2, m, p, k)
  }

  /** The entropy bits of the selected blocks. */
  function Bits(s: seq<Block>, picks: seq<nat>, n: nat): nat
    requires n <= |picks|
    decreases n
  {
    if n == 0 then 0
    else Bits(s, picks, n - 1) + if picks[n - 1] < |s| then EntropyBit(s[picks[n - 1]]) * Pow(2, n - 1) else 0
  }

  lemma BitTimes(b: Block, x: nat)
    ensures EntropyBit(b) * x == if EntropyBit(b) == 0 then 0 else x
  {
    var e := EntropyBit(b);
    assert e == 0 || e == 1;
    if e == 0 { assert e * x == 0; } else { assert e * x == x; }
  }

  lemma {:induction false} BitsFit(s: seq<Block>, picks: seq<nat>, n: nat)
    requires n <= |picks|
    ensures Bits(s, picks, n) < Pow(2, n)
    decreases n
  {
    if n > 0 {
      BitsFit(s, picks, n - 1);
      if picks[n - 1] < |s| {
        BitTimes(s[picks[n - 1]], Pow(2, n - 1));
      }
    }
  }

  lemma {:induction false} BitsOfMore(s: seq<Block>, picks: seq<nat>, x: nat, n: nat)
    requires n <= |picks|
    ensures Bits(s, picks + [x], n) == Bits(s, picks, n)
    decreases n
  {
    if n > 0 { BitsOfMore(s, picks, x, n - 1); }
  }

  lemma SelectionExtends(s: seq<Block>, picks: seq<nat>, start: int, v2: bool, m: nat, p: Params, n: nat, x: nat)
    requires Selection(s, picks, start, v2, m, p, n) && n < ROUNDS
    requires IsPick(s, picks, start + SectionsUpTo(n + 1), v2, m, p, x)
    ensures Selection(s, picks + [x], start, v2, m, p, n + 1)
  {
    hide IsPick;
    forall k | 0 <= k < n + 1 ensures RoundOk(s, picks + [x], start, v2, m, p, k) {
      assert (picks + [x])[..k] == picks[..k];
      if k < n { assert RoundOk(s, picks, start, v2, m, p, k); } else { assert picks[..n] == picks; }
    }
  }

  /** No candidate is selected twice. */
  lemma SelectionDistinct(s: seq<Block>, picks: seq<nat>, start: int, v2: bool, m: nat, p: Params, n: nat)
    requires Selection(s, picks, start, v2, m, p, n)
    ensures forall i, j :: 0 <= i < j < n ==> picks[i] != picks[j]
    ensures forall k :: 0 <= k < n ==> picks[k] < |s|
  {
    forall j | 0 <= j < n
      ensures picks[j] < |s| && forall i :: 0 <= i < j ==> picks[i] != picks[j]
    {
      assert RoundOk(s, picks, start, v2, m, p, j);
      forall i | 0 <= i < j ensures picks[i] != picks[j] { assert picks[..j][i] == picks[i]; }
    }
  }

  lemma {:induction false} SelectionUnique(s: seq<Block>, a: seq<nat>, b: seq<nat>, start: int, v2: bool, m: nat,
                                           p: Params, n: nat, k: nat)
    requires Selection(s, a, start, v2, m, p, n) && Selection(s, b, start, v2, m, p, n) && k <= n
    ensures a[..k] == b[..k]
    decreases k
  {
    if k > 0 {
      hide IsPick, SectionsUpTo;
      SelectionUnique(s, a, b, start, v2, m, p, n, k - 1);
      assert RoundOk(s, a, start, v2, m, p, k - 1) && RoundOk(s, b, start, v2, m, p, k - 1);
      PickIsUnique(s, a[..k - 1], start + SectionsUpTo(k), v2, m, p, a[k - 1], b[k - 1]);
      assert a[..k] == a[..k - 1] + [a[k - 1]] && b[..k] == b[..k - 1] + [b[k - 1]];
    }
  }

  // ----- The next modifier -----

  function FirstN(n: nat): (r: set<nat>)
    ensures |r| == n && forall i: nat :: i in r <==> i < n
    decreases n
  {
    if n == 0 then {} else FirstN(n - 1) + {n - 1}
  }

  function Elements(a: seq<nat>): (r: set<nat>)
    ensures |r| <= |a| && forall i :: i in r <==> i in a
    decreases |a|
  {
    if a == [] then {} else
      assert a == a[..|a| - 1] + [a[|a| - 1]];
      Elements(a[..|a| - 1]) + {a[|a| - 1]}
  }

  /** Fewer rounds than candidates leave one over: "unable to select block" cannot happen. */
  lemma SomethingLeft(s: seq<Block>, picks: seq<nat>)
    requires |picks| < |s|
    ensures exists i: nat :: Unselected(s, picks, i)
  {
    if !exists i: nat :: Unselected(s, picks, i) {
      forall i: nat | i < |s| ensures i in picks { assert !Unselected(s, picks, i); }
      assert FirstN(|s|) <= Elements(picks);
      SubsetSize(FirstN(|s|), Elements(picks));
      assert false;
    }
  }

  /** The candidates decide with their first entry, and all by its height, which proof is hashed. */
  function UsesV2(c: Branch, s: seq<Block>, p: Params): bool {
    s != [] && HeightOf(c, s[0], |c|) >= p.upgrade
  }

  /** mapBlockIndex[hash]->nHeight. */
  function HeightOf(c: Branch, b: Block, n: nat): (h: nat)
    requires n <= |c|
    ensures b in c[..n] ==> h < n && c[h] == b
    decreases n
  {
    if n == 0 then 0 else if c[n - 1] == b then n - 1 else
      assert b in c[..n] ==> b in c[..n - 1];
      HeightOf(c, b, n - 1)
  }

  /**
   What ComputeNextStakeModifier answers for a block on top of c: the modifier, and whether it is
   newly generated.  picks are the candidates the rounds selected.
   */
  ghost predicate Next(c: Branch, p: Params, modifier: nat, generated: bool, picks: seq<nat>) {
    if c == [] then modifier == 0 && generated
    else if |c| == 1 then modifier == p.first && generated
    else
      var h := |c| - 1;
      var last := c[Generator(c, h)];
      if last.time / MODIFIER_INTERVAL >= c[h].time / MODIFIER_INTERVAL then modifier == last.modifier && !generated
      else
        var s := Candidates(c, h);
        && generated
        && Selection(s, picks, IntervalStart(c[h].time), UsesV2(c, s, p), last.modifier, p, Lesser(ROUNDS, |s|))
        && modifier == Bits(s, picks, Lesser(ROUNDS, |s|))
  }

  /** The rounds of ComputeNextStakeModifier. */
  method Rounds(s: seq<Block>, start: int, v2: bool, m: nat, p: Params) returns (r: Option<nat>, ghost picked: seq<nat>)
    requires Sorted(s)
    ensures r.Some? && Selection(s, picked, start, v2, m, p, Lesser(ROUNDS, |s|))
    ensures r == Some(Bits(s, picked, Lesser(ROUNDS, |s|)))
  {
    hide Selection, IsPick, SectionsUpTo, Bits, Section;
    var stop, modifierNew, picks := start, 0, [];
    NoRounds(s, start, v2, m, p);
    var rounds := Lesser(ROUNDS, |s|);
    for k := 0 to rounds
      invariant Selection(s, picks, start, v2, m, p, k) && |picks| == k
      invariant stop == start + SectionsUpTo(k) && modifierNew == Bits(s, picks, k)
    {
      SectionStep(k);
      stop := stop + Section(k);
      SomethingLeft(s, picks);
      var i := SelectBlockFromCandidates(s, picks, stop, v2, m, p);
      if i == None {
        return None, picks;
      }
      PickInRange(s, picks, stop, v2, m, p, i.value);
      SelectionExtends(s, picks, start, v2, m, p, k, i.value);
      BitsStep(s, picks, i.value);
      modifierNew := modifierNew + EntropyBit(s[i.value]) * Pow(2, k);
      picks := picks + [i.value];
      SelectionSize(s, picks, start, v2, m, p, k + 1);
    }
    r, picked := Some(modifierNew), picks;
  }

  lemma NoRounds(s: seq<Block>, start: int, v2: bool, m: nat, p: Params)
    ensures Selection(s, [], start, v2, m, p, 0) && Bits(s, [], 0) == 0 && SectionsUpTo(0) == 0
  {
  }

  lemma SectionStep(k: nat)
    requires k < ROUNDS
    ensures SectionsUpTo(k + 1) == SectionsUpTo(k) + Section(k)
  {
  }

  lemma PickInRange(s: seq<Block>, picks: seq<nat>, stop: int, v2: bool, m: nat, p: Params, i: nat)
    requires IsPick(s, picks, stop, v2, m, p, i)
    ensures i < |s|
  {
  }

  lemma SelectionSize(s: seq<Block>, picks: seq<nat>, start: int, v2: bool, m: nat, p: Params, n: nat)
    requires Selection(s, picks, start, v2, m, p, n)
    ensures |picks| == n
  {
  }

  lemma BitsStep(s: seq<Block>, picks: seq<nat>, x: nat)
    requires x < |s|
    ensures Bits(s, picks + [x], |picks| + 1) == Bits(s, picks, |picks|) + EntropyBit(s[x]) * Pow(2, |picks|)
  {
    BitsOfMore(s, picks, x, |picks|);
  }

  /** The loop that collects the candidates, and the sort. */
  method CollectCandidates(c: Branch, h: nat, start: int) returns (s: seq<Block>)
    requires h < |c|
    ensures s == SortedRange(c, FirstCandidate(c, h, start), h + 1)
  {
    var n: nat := h + 1;
    while n > 0 && c[n - 1].time >= start
      invariant 0 <= n <= h + 1
      invariant FirstCandidate(c, h, start) == if n == 0 then 0 else FirstCandidate(c, n - 1, start)
    {
      n := n - 1;
    }
    assert n == FirstCandidate(c, h, start);
    s := [];
    for i := n to h + 1
      invariant s == SortedRange(c, n, i)
    {
      s := Insert(s, c[i]);
    }
  }

  /** A branch on which every entry got its modifier from AddToBlockIndex; genesis gets none there. */
  ghost predicate Built(c: Branch, p: Params) {
    && Distinct(c)
    && (|c| > 0 ==> c[0].modifier == 0 && !c[0].generated)
    && forall h {:trigger BuiltAt(c, p, h)} :: 0 < h < |c| ==> BuiltAt(c, p, h)
  }

  ghost predicate BuiltAt(c: Branch, p: Params, h: nat)
    requires h < |c|
  {
    exists picks {:trigger Next(c[..h], p, c[h].modifier, c[h].generated, picks)} ::
      Next(c[..h], p, c[h].modifier, c[h].generated, picks)
  }

  /** There is a generator for every block but genesis: "no generation at genesis block" cannot happen. */
  lemma FirstGenerates(c: Branch, p: Params)
    requires Built(c, p) && |c| > 1
    ensures c[1].generated && c[1].modifier == p.first
    ensures forall h :: 0 < h < |c| ==> c[Generator(c, h)].generated
  {
    assert BuiltAt(c, p, 1);
  }

  /** ComputeNextStakeModifier: on a branch built by AddToBlockIndex it takes none of its error returns. */
  method ComputeNextStakeModifier(c: Branch, p: Params)
    returns (ok: bool, modifier: nat, generated: bool, ghost picks: seq<nat>)
    requires Built(c, p)
    ensures ok && Next(c, p, modifier, generated, picks)
  {
    hide Selection, IsPick, SectionsUpTo, Bits, BuiltAt, SortedRange, FirstCandidate, Generator, Distinct, UsesV2;
    ok, modifier, generated, picks := true, 0, false, [];
    if |c| == 0 {
      generated := true;
      return;
    }
    if |c| == 1 {
      generated := true;
      modifier := p.first;
      return;
    }
    var h := |c| - 1;
    FirstGenerates(c, p);
    var last := GetLastStakeModifier(c, h);
    if last == None {
      ok := false;
      return;
    }
    modifier := last.value.0;
    if last.value.1 / MODIFIER_INTERVAL >= c[h].time / MODIFIER_INTERVAL {
      return;
    }
    var interval := SelectionInterval();
    var start := c[h].time / MODIFIER_INTERVAL * MODIFIER_INTERVAL - interval;
    var s := CollectCandidates(c, h, start);
    SortedRangeOk(c, FirstCandidate(c, h, start), h + 1);
    var r, picked := Rounds(s, start, UsesV2(c, s, p), last.value.0, p);
    if r == None {
      ok := false;
      return;
    }
    modifier, generated, picks := r.value, true, picked;
  }

  /** The answer is determined by the branch. */
  lemma NextIsUnique(c: Branch, p: Params, m1: nat, g1: bool, picks1: seq<nat>, m2: nat, g2: bool, picks2: seq<nat>)
    requires Next(c, p, m1, g1, picks1) && Next(c, p, m2, g2, picks2)
    ensures m1 == m2 && g1 == g2
  {
    if g1 && |c| > 1 {
      var h := |c| - 1;
      var last := c[Generator(c, h)];
      var s := Candidates(c, h);
      var n := Lesser(ROUNDS, |s|);
      SelectionUnique(s, picks1, picks2, IntervalStart(c[h].time), UsesV2(c, s, p), last.modifier, p, n, n);
      assert picks1[..n] == picks1 && picks2[..n] == picks2;
    }
  }

  /** The candidates are distinct entries of the branch, so the selected ones are distinct ancestors. */
  lemma SelectedAreAncestors(c: Branch, p: Params, modifier: nat, picks: seq<nat>)
    requires Distinct(c) && |c| > 1 && Next(c, p, modifier, true, picks)
    ensures var s := Candidates(c, |c| - 1);
      && |picks| == Lesser(ROUNDS, |s|) && modifier < Pow(2, |picks|)
      && forall i, j :: 0 <= i < j < |picks| ==>
           picks[i] < |s| && picks[j] < |s| && s[picks[i]] in c && s[picks[i]].hash != s[picks[j]].hash
  {
    hide Selection, IsPick, Bits, SectionsUpTo, Insert;
    var h := |c| - 1;
    var s := Candidates(c, h);
    var start := IntervalStart(c[h].time);
    SortedRangeOk(c, FirstCandidate(c, h, start), h + 1);
    var n := Lesser(ROUNDS, |s|);
    SelectionSize(s, picks, start, UsesV2(c, s, p), c[Generator(c, h)].modifier, p, n);
    SelectionDistinct(s, picks, start, UsesV2(c, s, p), c[Generator(c, h)].modifier, p, n);
    BitsFit(s, picks, |picks|);
    forall i, j | 0 <= i < j < |picks| ensures s[picks[i]] in c && s[picks[i]].hash != s[picks[j]].hash {
      DifferentHashes(c, s, picks[i], picks[j]);
    }
  }

  lemma DifferentHashes(c: Branch, s: seq<Block>, i: nat, j: nat)
    requires Distinct(c) && Sorted(s) && i < |s| && j < |s| && i != j && forall x :: x in s ==> x in c
    ensures s[i] in c && s[i].hash != s[j].hash
  {
    assert s[i] in s && s[j] in s;
    assert Earlier(s[i], s[j]) || Earlier(s[j], s[i]);
    var k :| 0 <= k < |c| && c[k] == s[i];
    var l :| 0 <= l < |c| && c[l] == s[j];
  }

  /** A block above genesis that did not generate its modifier carries that of its nearest generating ancestor. */
  lemma {:induction false} CarriesModifier(c: Branch, p: Params, h: nat)
    requires Built(c, p) && 0 < h < |c|
    ensures 0 < Generator(c, h) && c[Generator(c, h)].generated && c[h].modifier == c[Generator(c, h)].modifier
    decreases h
  {
    hide Candidates, Selection, Bits;
    FirstGenerates(c, p);
    if !c[h].generated {
      assert BuiltAt(c, p, h);
      CarriesModifier(c, p, h - 1);
      GeneratorOfPrefix(c, h, h - 1);
    }
  }

  lemma {:induction false} GeneratorOfPrefix(c: Branch, n: nat, h: nat)
    requires h < n <= |c|
    ensures Generator(c[..n], h) == Generator(c, h)
    decreases h
  {
    if h > 0 { GeneratorOfPrefix(c, n, h - 1); }
  }

  /** AddToBlockIndex: a new entry with the computed modifier keeps the branch as it should be. */
  lemma AddKeepsBuilt(c: Branch, p: Params, b: Block, picks: seq<nat>)
    requires Built(c, p) && c != [] && Next(c, p, b.modifier, b.generated, picks)
    requires forall i :: 0 <= i < |c| ==> c[i].hash != b.hash
    ensures Built(c + [b], p)
  {
    hide Next;
    var c' := c + [b];
    forall h | 0 < h < |c'| ensures BuiltAt(c', p, h) {
      if h < |c| {
        assert c'[..h] == c[..h] && c'[h] == c[h] && BuiltAt(c, p, h);
        var earlier :| Next(c[..h], p, c[h].modifier, c[h].generated, earlier);
        assert Next(c'[..h], p, c'[h].modifier, c'[h].generated, earlier);
      } else {
        assert c'[..h] == c;
        assert Next(c'[..h], p, c'[h].modifier, c'[h].generated, picks);
      }
    }
  }
}
