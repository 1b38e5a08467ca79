/** Positional numbers: big-endian digits in any base, as Base58 needs them. */
module Positional {
  function Pow(b: nat, e: nat): (r: nat)
    ensures b > 0 ==> r > 0
    decreases e
  {
    if e == 0 then 1 else b * Pow(b, e - 1)
  }

  predicate DigitsOk(d: seq<nat>, b: nat) {
    forall i :: 0 <= i < |d| ==> d[i] < b
  }

  /** No leading zero. */
  predicate Canonical(d: seq<nat>, b: nat) {
    DigitsOk(d, b) && (d != [] ==> d[0] != 0)
  }

  /** The value of the first k digits. */
  function Head(d: seq<nat>, b: nat, k: nat): nat
    requires k <= |d|
    decreases k
  {
    if k == 0 then 0 else Head(d, b, k - 1) * b + d[k - 1]
  }

  function Val(d: seq<nat>, b: nat): nat {
    Head(d, b, |d|)
  }

  /** The digits of n without leading zeros; 0 has none. */
  function Digits(n: nat, b: nat): seq<nat>
    requires b > 1
    decreases n
  {
    if n == 0 then [] else
      DivMod(n, b);
      Digits(n / b, b) + [n % b]
  }

  lemma DivMod(n: nat, b: nat)
    requires b > 0
    ensures 0 <= n % b < b && 0 <= n / b && n / b * b + n % b == n
    ensures n > 0 && b > 1 ==> n / b < n
  {
    var q, r := n / b, n % b;
    assert q * b + r == n;
    if b > 1 { MulMono(b, 2, q); }
  }

  // ----- Digits and values are inverse -----

  lemma {:induction false} HeadOfPrefix(d: seq<nat>, e: seq<nat>, b: nat, k: nat)
    requires k <= |d| && k <= |e| && d[..k] == e[..k]
    ensures Head(d, b, k) == Head(e, b, k)
    decreases k
  {
    if k > 0 {
      assert d[..k][k - 1] == e[..k][k - 1];
      assert d[..k - 1] == d[..k][..k - 1] && e[..k - 1] == e[..k][..k - 1];
      HeadOfPrefix(d, e, b, k - 1);
    }
  }

  lemma ValOfAppend(d: seq<nat>, x: nat, b: nat)
    ensures Val(d + [x], b) == Val(d, b) * b + x
  {
    HeadOfPrefix(d + [x], d, b, |d|);
  }

  lemma {:induction false} DigitsAreCanonical(n: nat, b: nat)
    requires b > 1
    ensures Canonical(Digits(n, b), b) && Val(Digits(n, b), b) == n
    ensures Digits(n, b) == [] <==> n == 0
    decreases n
  {
    if n > 0 {
      var q, x := n / b, n % b;
      DivMod(n, b);
      DigitsAreCanonical(q, b);
      var d := Digits(q, b);
      assert Digits(n, b) == d + [x];
      ValOfAppend(d, x, b);
      CanonicalAppend(d, x, b);
    }
  }

  lemma CanonicalAppend(d: seq<nat>, x: nat, b: nat)
    requires Canonical(d, b) && x < b && (d == [] ==> x != 0)
    ensures Canonical(d + [x], b)
  {
  }

  lemma DivAdd(v: nat, b: nat, x: nat)
    requires x < b
    ensures (v * b + x) / b == v && (v * b + x) % b == x
  {
    var n := v * b + x;
    var q, r := n / b, n % b;
    assert q * b + r == v * b + x;
    if q > v {
      MulMono(q, v + 1, b);
    } else if q < v {
      MulMono(v, q + 1, b);
    }
  }

  lemma MulMono(x: nat, y: nat, b: nat)
    requires x >= y
    ensures x * b >= y * b
  {
  }

  lemma {:induction false} CanonicalIsPositive(d: seq<nat>, b: nat, k: nat)
    requires b > 0 && k <= |d| && k > 0 && d[0] != 0
    ensures Head(d, b, k) > 0
    decreases k
  {
    if k > 1 {
      CanonicalIsPositive(d, b, k - 1);
      MulMono(Head(d, b, k - 1), 1, b);
    }
  }

  /** Digits without a leading zero are the digits of their value. */
  lemma {:induction false} DigitsOfVal(d: seq<nat>, b: nat)
    requires b > 1 && Canonical(d, b)
    ensures Digits(Val(d, b), b) == d
    decreases |d|
  {
    if d != [] {
      var init, x := d[..|d| - 1], d[|d| - 1];
      assert d == init + [x];
      ValOfAppend(init, x, b);
      DigitsOfVal(init, b);
      CanonicalIsPositive(d, b, |d|);
      DivAdd(Val(init, b), b, x);
    }
  }

  /** Leading zeros do not count. */
  lemma {:induction false} ValWithoutZeros(d: seq<nat>, b: nat, z: nat)
    requires z <= |d| && forall i :: 0 <= i < z ==> d[i] == 0
    ensures Val(d[z..], b) == Val(d, b)
    decreases |d|
  {
    if z == |d| {
      ZeroHead(d, b, z);
    } else {
      var init, x := d[..|d| - 1], d[|d| - 1];
      assert d == init + [x] && d[z..] == init[z..] + [x];
      ValOfAppend(init, x, b);
      ValOfAppend(init[z..], x, b);
      ValWithoutZeros(init, b, z);
    }
  }

  lemma {:induction false} ZeroHead(d: seq<nat>, b: nat, z: nat)
    requires z <= |d| && forall i :: 0 <= i < z ==> d[i] == 0
    ensures Head(d, b, z) == 0
    decreases z
  {
    if z > 0 { ZeroHead(d, b, z - 1); }
  }

  // ----- Sizes -----

  lemma {:induction false} PowSum(b: nat, m: nat, n: nat)
    ensures Pow(b, m + n) == Pow(b, m) * Pow(b, n)
    decreases m
  {
    if m > 0 {
      PowSum(b, m - 1, n);
      assert b * (Pow(b, m - 1) * Pow(b, n)) == b * Pow(b, m - 1) * Pow(b, n);
    }
  }

  lemma {:induction false} PowMono(b: nat, m: nat, n: nat)
    requires b > 0 && m <= n
    ensures Pow(b, m) <= Pow(b, n)
    decreases n
  {
    if m < n {
      PowMono(b, m, n - 1);
      MulMono(b, 1, Pow(b, n - 1));
    }
  }

  lemma {:induction false} HeadBound(d: seq<nat>, b: nat, k: nat)
    requires k <= |d| && DigitsOk(d, b) && (b > 0 || k == 0)
    ensures Head(d, b, k) < Pow(b, k)
    decreases k
  {
    if k > 0 {
      HeadBound(d, b, k - 1);
      BoundStep(Head(d, b, k - 1), Pow(b, k - 1), b, d[k - 1]);
    }
  }

  lemma BoundStep(h: nat, p: nat, b: nat, x: nat)
    requires h < p && x < b
    ensures h * b + x < b * p
  {
    MulMono(p, h + 1, b);
    assert (h + 1) * b == h * b + b;
  }

  /** The value of the digits from j on. */
  function Tail(d: seq<nat>, b: nat, j: nat): nat
    requires j <= |d|
    decreases |d| - j
  {
    if j == |d| then 0 else d[j] * Pow(b, |d| - 1 - j) + Tail(d, b, j + 1)
  }

  lemma {:induction false} HeadAndTail(d: seq<nat>, b: nat, k: nat)
    requires k <= |d|
    ensures Head(d, b, k) * Pow(b, |d| - k) + Tail(d, b, k) == Tail(d, b, 0)
    decreases k
  {
    if k > 0 {
      HeadAndTail(d, b, k - 1);
      var h, p := Head(d, b, k - 1), Pow(b, |d| - k);
      assert Pow(b, |d| - (k - 1)) == b * p;
      Distribute(h, b, p, d[k - 1]);
    }
  }

  lemma Distribute(h: nat, b: nat, p: nat, x: nat)
    ensures h * (b * p) + x * p == (h * b + x) * p
  {
  }

  lemma TailIsVal(d: seq<nat>, b: nat)
    ensures Tail(d, b, 0) == Val(d, b)
  {
    HeadAndTail(d, b, |d|);
  }

  lemma {:induction false} TailOfSuffix(d: seq<nat>, e: seq<nat>, b: nat, j: nat)
    requires j <= |d| == |e| && d[j..] == e[j..]
    ensures Tail(d, b, j) == Tail(e, b, j)
    decreases |d| - j
  {
    if j < |d| {
      assert d[j..][0] == e[j..][0];
      assert d[j + 1..] == d[j..][1..] && e[j + 1..] == e[j..][1..];
      TailOfSuffix(d, e, b, j + 1);
    }
  }

  /** One digit of the multiplication in place: the carry takes what does not fit. */
  lemma CarryStep(x: nat, m: nat, carry: nat, b: nat, p: nat, oldTail: nat, newTail: nat, c: nat)
    requires b > 0 && newTail + carry * p == m * oldTail + c
    ensures var t := carry + m * x;
      newTail + t % b * p + t / b * (b * p) == m * (x * p + oldTail) + c
  {
    var t := carry + m * x;
    calc {
      newTail + t % b * p + t / b * (b * p);
      newTail + (t % b + t / b * b) * p;
      { assert t % b + t / b * b == t; }
      newTail + (carry + m * x) * p;
      newTail + carry * p + m * x * p;
      m * oldTail + c + m * x * p;
    }
  }

  /** The state of the loop before position j - 1 is treated: the digits from j on are those of the result. */
  ghost predicate Partial(a: seq<nat>, d: seq<nat>, b: nat, m: nat, c: nat, j: nat, carry: nat) {
    && j <= |a| == |d| && DigitsOk(a, b) && a[..j] == d[..j]
    && Tail(a, b, j) + carry * Pow(b, |d| - j) == m * Tail(d, b, j) + c
  }

  lemma PartialStep(a: seq<nat>, d: seq<nat>, b: nat, m: nat, c: nat, j: nat, carry: nat)
    requires b > 0 && j < |a| && Partial(a, d, b, m, c, j + 1, carry)
    ensures var t := carry + m * a[j];
      t >= 0 && t % b >= 0 && t / b >= 0 && Partial(a[j := t % b], d, b, m, c, j, t / b)
  {
    hide Pow;
    assert a[j] == a[..j + 1][j] == d[..j + 1][j];
    assert a[..j] == a[..j + 1][..j] && d[..j] == d[..j + 1][..j];
    var t := carry + m * a[j];
    var a' := a[j := t % b];
    var p := Pow(b, |d| - 1 - j);
    DivMod(t, b);
    PowStep(b, |d| - 1 - j);
    TailOfSuffix(a', a, b, j + 1);
    CarryStep(a[j], m, carry, b, p, Tail(d, b, j + 1), Tail(a, b, j + 1), c);
  }

  lemma PowStep(b: nat, e: nat)
    ensures Pow(b, e + 1) == b * Pow(b, e)
  {
  }

  lemma PartialStart(d: seq<nat>, b: nat, m: nat, c: nat)
    requires DigitsOk(d, b)
    ensures Partial(d, d, b, m, c, |d|, c)
  {
  }

  lemma PartialEnd(a: seq<nat>, d: seq<nat>, b: nat, m: nat, c: nat, carry: nat)
    requires Partial(a, d, b, m, c, 0, carry) && Val(d, b) * m + c < Pow(b, |d|)
    ensures carry == 0 && DigitsOk(a, b) && Val(a, b) == Val(d, b) * m + c
  {
    hide Pow, Val, Tail;
    TailIsVal(a, b);
    TailIsVal(d, b);
    CarryIsZero(carry, Pow(b, |d|));
  }

  lemma CarryIsZero(carry: nat, p: nat)
    ensures carry * p < p ==> carry == 0
  {
  }

  /**
   The inner loop of both conversions: digits := digits * m + c in place.  The carry runs out
   whenever the result fits, which is the assertion after the loop.
   */
  method MultiplyAdd(a: array<nat>, b: nat, m: nat, c: nat)
    requires b > 1 && DigitsOk(a[..], b) && Val(a[..], b) * m + c < Pow(b, a.Length)
    modifies a
    ensures DigitsOk(a[..], b) && Val(a[..], b) == Val(old(a[..]), b) * m + c
  {
    hide Partial, Val, DigitsOk, Pow;
    ghost var d := a[..];
    var carry: nat := c;
    var j := a.Length;
    PartialStart(d, b, m, c);
    while j > 0
      invariant 0 <= j <= a.Length && Partial(a[..], d, b, m, c, j, carry)
    {
      ghost var before := a[..];
      j := j - 1;
      PartialStep(a[..], d, b, m, c, j, carry);
      carry := carry + m * a[j];
      a[j] := carry % b;
      carry := carry / b;
      assert a[..] == before[j := a[j]];
    }
    PartialEnd(a[..], d, b, m, c, carry);
    assert carry == 0;
  }
}
