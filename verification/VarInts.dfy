/** Variable-length integers (src/serialize.h) and amount compression (src/compressor.cpp). */
module VarInts {
  import opened Wrappers

  /** A stream: the bytes written, or those still to be read. */
  type Stream = seq<nat>

  // ----- WriteVarInt and ReadVarInt -----

  /** The bytes of n; all but the last of a number have bit 128 set. */
  function Encoding(n: nat, last: bool): (r: Stream)
    ensures |r| > 0 && forall i :: 0 <= i < |r| ==> r[i] < 256
    decreases n
  {
    var flag := if last then 0 else 128;
    if n <= 127 then [n + flag] else Encoding(n / 128 - 1, false) + [n % 128 + flag]
  }

  function VarInt(n: nat): Stream {
    Encoding(n, true)
  }

  /** What WriteVarInt writes of a signed number: a negative one ends the first loop with its low seven bits. */
  function Carried(n: int): nat {
    if n >= 0 then n else n % 128
  }

  lemma NaturalsCarry(n: nat)
    ensures Carried(n) == n
  {
  }

  /** ReadVarInt, after the bytes before gave acc; None is the end of the stream. */
  function ReadFrom(acc: nat, s: Stream): Option<(nat, Stream)>
    decreases |s|
  {
    if s == [] then None
    else
      var n := acc * 128 + s[0] % 128;
      if s[0] >= 128 then ReadFrom(n + 1, s[1..]) else Some((n, s[1..]))
  }

  function ReadVarInt(s: Stream): Option<(nat, Stream)> {
    ReadFrom(0, s)
  }

  lemma ReadOne(acc: nat, b: nat, t: Stream)
    ensures ReadFrom(acc, [b] + t) ==
      if b >= 128 then ReadFrom(acc * 128 + b % 128 + 1, t) else Some((acc * 128 + b % 128, t))
  {
    assert ([b] + t)[1..] == t;
  }

  lemma {:induction false} ReadEncoding(n: nat, last: bool, t: Stream)
    ensures ReadFrom(0, Encoding(n, last) + t) == if last then Some((n, t)) else ReadFrom(n + 1, t)
    decreases n
  {
    hide ReadFrom;
    var flag := if last then 0 else 128;
    if n <= 127 {
      ReadOne(0, n + flag, t);
    } else {
      var q, b := n / 128 - 1, n % 128 + flag;
      assert Encoding(n, last) + t == Encoding(q, false) + ([b] + t);
      ReadEncoding(q, false, [b] + t);
      ReadOne(q + 1, b, t);
    }
  }

  /** Reading gives back the number and stops right behind it. */
  lemma ReadBack(n: nat, t: Stream)
    ensures ReadVarInt(VarInt(n) + t) == Some((n, t))
  {
    ReadEncoding(n, true, t);
  }

  lemma EncodingStep(n: nat, b: nat, last: bool)
    requires b < 128
    ensures Encoding((n + 1) * 128 + b, last) == Encoding(n, false) + [b + if last then 0 else 128]
  {
    var m := (n + 1) * 128 + b;
    assert m / 128 - 1 == n && m % 128 == b;
  }

  /** The bytes that lead ReadVarInt to acc. */
  function Before(acc: nat): Stream {
    if acc == 0 then [] else Encoding(acc - 1, false)
  }

  lemma NextByte(acc: nat, ch: nat)
    requires ch < 256
    ensures var n := acc * 128 + ch % 128;
      Before(acc) + [ch] == if ch < 128 then VarInt(n) else Before(n + 1)
  {
    if acc > 0 { EncodingStep(acc - 1, ch % 128, ch < 128); }
  }

  lemma ReadStep(acc: nat, s: Stream)
    requires s != []
    ensures var n := acc * 128 + s[0] % 128;
      n >= 0 && ReadFrom(acc, s) == if s[0] < 128 then Some((n, s[1..])) else ReadFrom(n + 1, s[1..])
  {
  }

  lemma {:induction false} FromBytes(acc: nat, s: Stream)
    requires forall i :: 0 <= i < |s| ==> s[i] < 256
    ensures ReadFrom(acc, s).Some? ==>
      Before(acc) + s == VarInt(ReadFrom(acc, s).value.0) + ReadFrom(acc, s).value.1
    decreases |s|
  {
    if s != [] {
      hide *;
      var n := acc * 128 + s[0] % 128;
      ReadStep(acc, s);
      NextByte(acc, s[0]);
      assert Before(acc) + s == Before(acc) + [s[0]] + s[1..];
      if s[0] >= 128 { FromBytes(n + 1, s[1..]); }
    }
  }

  /** Every number has one encoding only: what was read is what WriteVarInt writes for the result. */
  lemma OneEncoding(s: Stream)
    requires forall i :: 0 <= i < |s| ==> s[i] < 256
    ensures ReadVarInt(s).Some? ==> s == VarInt(ReadVarInt(s).value.0) + ReadVarInt(s).value.1
  {
    FromBytes(0, s);
    assert [] + s == s;
  }

  function Backwards(s: Stream): Stream
    decreases |s|
  {
    if s == [] then [] else [s[|s| - 1]] + Backwards(s[..|s| - 1])
  }

  lemma BackwardsAppend(s: Stream, b: nat)
    ensures Backwards(s + [b]) == [b] + Backwards(s)
  {
    assert (s + [b])[..|s|] == s;
  }

  lemma EncodingLast(n: nat, last: bool, rest: Stream)
    ensures var b := n % 128 + if last then 0 else 128;
      Encoding(n, last) + rest == (if n <= 127 then [b] + rest else Encoding(n / 128 - 1, false) + ([b] + rest))
  {
    var b := n % 128 + if last then 0 else 128;
    if n > 127 { assert Encoding(n / 128 - 1, false) + [b] + rest == Encoding(n / 128 - 1, false) + ([b] + rest); }
  }

  /** The first loop of WriteVarInt, which makes the bytes from the last to the first. */
  method MakeBytes(nIn: int) returns (tmp: Stream)
    ensures Backwards(tmp) == VarInt(Carried(nIn))
  {
    hide Encoding, Backwards;
    var n := nIn;
    tmp := [];
    NoBytes(VarInt(Carried(nIn)));
    while n > 127
      invariant n < 0 ==> tmp == []
      invariant VarInt(Carried(nIn)) == Encoding(Carried(n), tmp == []) + Backwards(tmp)
      decreases n
    {
      var b := n % 128 + if |tmp| > 0 then 128 else 0;
      EncodingLast(n, tmp == [], Backwards(tmp));
      BackwardsAppend(tmp, b);
      tmp := tmp + [b];
      n := n / 128 - 1;
    }
    var b := n % 128 + if |tmp| > 0 then 128 else 0;
    EncodingLast(Carried(n), tmp == [], Backwards(tmp));
    BackwardsAppend(tmp, b);
    tmp := tmp + [b];
  }

  lemma NoBytes(s: Stream)
    ensures Backwards([]) == [] && s + [] == s
  {
  }

  lemma WriteNext(r: Stream, tmp: Stream, len: nat)
    requires len < |tmp|
    ensures r + Backwards(tmp[..len + 1]) == r + [tmp[len]] + Backwards(tmp[..len])
  {
    hide Backwards;
    assert tmp[..len + 1] == tmp[..len] + [tmp[len]];
    BackwardsAppend(tmp[..len], tmp[len]);
  }

  /** WriteVarInt; the loop that leaves in the middle is written with its test in front. */
  method WriteVarInt(os: Stream, n: int) returns (r: Stream)
    ensures r == os + VarInt(Carried(n))
  {
    hide *;
    var tmp := MakeBytes(n);
    r := os;
    var len := |tmp|;
    assert tmp[..len] == tmp;
    while len > 0
      invariant 0 <= len <= |tmp| && r + Backwards(tmp[..len]) == os + Backwards(tmp)
    {
      len := len - 1;
      WriteNext(r, tmp, len);
      r := r + [tmp[len]];
    }
    NoBytes(r);
  }

  /** ReadVarInt. */
  method ReadVarIntFrom(input: Stream) returns (r: Option<(nat, Stream)>)
    ensures r == ReadVarInt(input)
  {
    var n: nat := 0;
    var s := input;
    while s != []
      invariant ReadVarInt(input) == ReadFrom(n, s)
      decreases |s|
    {
      var ch := s[0];
      s := s[1..];
      n := n * 128 + ch % 128;
      if ch >= 128 {
        n := n + 1;
      } else {
        return Some((n, s));
      }
    }
    return None;
  }

  // ----- CompressAmount and DecompressAmount -----

  /** The largest power of ten, up to 10^9, taken out of n. */
  function Stripped(n: nat, e: nat): (r: (nat, nat))
    requires n > 0 && e <= 9
    ensures r.0 > 0 && e <= r.1 <= 9 && (r.1 < 9 ==> r.0 % 10 != 0) && r.0 <= n
    decreases 9 - e
  {
    if n % 10 == 0 && e < 9 then Stripped(n / 10, e + 1) else (n, e)
  }

  function Scaled(n: nat, e: nat): nat
    decreases e
  {
    if e == 0 then n else Scaled(n * 10, e - 1)
  }

  function Packed(n: nat, e: nat): nat
    requires n > 0 && e <= 9 && (e < 9 ==> n % 10 != 0)
  {
    if e < 9 then 1 + (n / 10 * 9 + n % 10 - 1) * 10 + e else 1 + (n - 1) * 10 + 9
  }

  function Compressed(n: nat): nat {
    if n == 0 then 0 else Packed(Stripped(n, 0).0, Stripped(n, 0).1)
  }

  function Unpacked(x: nat): (r: (nat, nat))
    requires x > 0
    ensures r.0 > 0 && r.1 <= 9 && (r.1 < 9 ==> r.0 % 10 != 0)
  {
    var e, y := (x - 1) % 10, (x - 1) / 10;
    if e < 9 then (y / 9 * 10 + y % 9 + 1, e) else (y + 1, e)
  }

  function Decompressed(x: nat): nat {
    if x == 0 then 0 else Scaled(Unpacked(x).0, Unpacked(x).1)
  }

  lemma {:induction false} StrippedScales(n: nat, e: nat)
    requires n > 0 && e <= 9
    ensures Scaled(Stripped(n, e).0, Stripped(n, e).1 - e) == n
    decreases 9 - e
  {
    if n % 10 == 0 && e < 9 {
      StrippedScales(n / 10, e + 1);
      ScaledTen(Stripped(n, e).0, Stripped(n, e).1 - e - 1);
    }
  }

  lemma {:induction false} ScaledTen(n: nat, e: nat)
    ensures Scaled(n, e + 1) == 10 * Scaled(n, e)
    decreases e
  {
    if e > 0 { ScaledTen(n * 10, e - 1); }
  }

  lemma {:induction false} ScaledPositive(n: nat, e: nat)
    requires n > 0
    ensures Scaled(n, e) >= n
    decreases e
  {
    if e > 0 { ScaledPositive(n * 10, e - 1); }
  }

  lemma {:induction false} StrippedOfScaled(n: nat, e: nat, k: nat)
    requires n > 0 && e + k <= 9 && (e + k < 9 ==> n % 10 != 0)
    ensures Scaled(n, k) > 0 && Stripped(Scaled(n, k), e) == (n, e + k)
    decreases k
  {
    ScaledPositive(n, k);
    if k > 0 {
      ScaledTen(n, k - 1);
      StrippedOfScaled(n, e + 1, k - 1);
    }
  }

  lemma PackUnpack(n: nat, e: nat)
    requires n > 0 && e <= 9 && (e < 9 ==> n % 10 != 0)
    ensures Packed(n, e) > 0 && Unpacked(Packed(n, e)) == (n, e)
  {
    if e < 9 {
      var y := n / 10 * 9 + n % 10 - 1;
      assert y / 9 == n / 10 && y % 9 == n % 10 - 1;
      assert Packed(n, e) == 1 + y * 10 + e;
      assert (Packed(n, e) - 1) / 10 == y && (Packed(n, e) - 1) % 10 == e;
    }
  }

  lemma UnpackPack(x: nat)
    requires x > 0
    ensures Packed(Unpacked(x).0, Unpacked(x).1) == x
  {
    var e, y := (x - 1) % 10, (x - 1) / 10;
    if e < 9 {
      var n := y / 9 * 10 + y % 9 + 1;
      assert n / 10 == y / 9 && n % 10 == y % 9 + 1;
    }
  }

  /** CompressAmount and DecompressAmount are inverse to each other on all numbers. */
  lemma DecompressCompress(n: nat)
    ensures Decompressed(Compressed(n)) == n
  {
    if n > 0 {
      var (m, e) := Stripped(n, 0);
      PackUnpack(m, e);
      StrippedScales(n, 0);
    }
  }

  lemma CompressDecompress(x: nat)
    ensures Compressed(Decompressed(x)) == x
  {
    if x > 0 {
      var (m, e) := Unpacked(x);
      StrippedOfScaled(m, 0, e);
      UnpackPack(x);
    }
  }

  /** No 64-bit overflow for amounts up to the money limit, 21 million coins of 10^8 units. */
  lemma CompressedFits(n: nat)
    ensures Compressed(n) <= 10 * n
    ensures n <= 2100000000000000 ==> Compressed(n) < 0x1_0000_0000_0000_0000
  {
  }

  /** CompressAmount. */
  method CompressAmount(nIn: nat) returns (x: nat)
    ensures x == Compressed(nIn)
  {
    var n := nIn;
    if n == 0 {
      return 0;
    }
    var e := 0;
    while n % 10 == 0 && e < 9
      invariant n > 0 && 0 <= e <= 9 && Stripped(n, e) == Stripped(nIn, 0)
      decreases 9 - e
    {
      n := n / 10;
      e := e + 1;
    }
    if e < 9 {
      var d := n % 10;
      assert 1 <= d <= 9;
      n := n / 10;
      return 1 + (n * 9 + d - 1) * 10 + e;
    } else {
      return 1 + (n - 1) * 10 + 9;
    }
  }

  /** DecompressAmount. */
  method DecompressAmount(xIn: nat) returns (n: nat)
    ensures n == Decompressed(xIn)
  {
    var x := xIn;
    if x == 0 {
      return 0;
    }
    x := x - 1;
    var e := x % 10;
    x := x / 10;
    if e < 9 {
      var d := x % 9 + 1;
      x := x / 9;
      n := x * 10 + d;
    } else {
      n := x + 1;
    }
    while e > 0
      invariant 0 <= e <= 9 && Scaled(n, e) == Decompressed(xIn)
      decreases e
    {
      n := n * 10;
      e := e - 1;
    }
  }
}
