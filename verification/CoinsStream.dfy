/** The loops of CCoins::CalcMaskSize, Serialize and Unserialize over a stream (src/coins.h, src/coins.cpp). */
module CoinsStream {
  import opened Wrappers
  import opened Coins
  import opened Positional
  import opened VarInts
  import opened ScriptCodec
  import opened CoinsCodec

  /** The inner loop of CalcMaskSize. */
  method ByteIsZero(vout: seq<TxOut>, b: nat) returns (fZero: bool)
    ensures fZero <==> MaskByte(vout, b) == 0
  {
    MaskOfNothing(vout, 2 + 8 * b, 0);
    fZero := true;
    var i := 0;
    while i < 8 && 2 + b * 8 + i < |vout|
      invariant 0 <= i <= 8
      invariant fZero <==> forall j {:trigger Avail(vout, j)} :: 2 + 8 * b <= j < 2 + 8 * b + i ==> !Avail(vout, j)
    {
      if !vout[2 + b * 8 + i].IsNull() {
        fZero := false;
        assert Avail(vout, 2 + 8 * b + i);
      }
      i := i + 1;
    }
  }

  lemma {:induction false} NonZeroUpTo(vout: seq<TxOut>, from: nat, n: nat)
    requires from <= n
    ensures NonZero(vout, from, n + 1) == NonZero(vout, from, n) + if MaskByte(vout, n) != 0 then 1 else 0
    decreases n - from
  {
    hide MaskByte;
    if from < n { NonZeroUpTo(vout, from + 1, n); }
  }

  lemma {:induction false} NonZeroEnds(vout: seq<TxOut>, from: nat, m: nat, n: nat)
    requires from <= m <= n && forall b :: m <= b < n ==> MaskByte(vout, b) == 0
    ensures NonZero(vout, from, n) == NonZero(vout, from, m)
    decreases n
  {
    hide MaskByte;
    if m < n {
      NonZeroUpTo(vout, from, n - 1);
      NonZeroEnds(vout, from, m, n - 1);
    }
  }

  lemma {:induction false} LastUsedEnds(vout: seq<TxOut>, m: nat, n: nat)
    requires m <= n && forall b :: m <= b < n ==> MaskByte(vout, b) == 0
    ensures LastUsed(vout, n) == LastUsed(vout, m)
    decreases n
  {
    hide MaskByte;
    if m < n { LastUsedEnds(vout, m, n - 1); }
  }

  /** CalcMaskSize. */
  method CalcMaskSize(vout: seq<TxOut>) returns (nBytes: nat, nNonzeroBytes: nat)
    ensures nBytes == MaskSize(vout) && nNonzeroBytes == NonZero(vout, 0, MaskSize(vout))
  {
    hide MaskByte;
    var nLastUsedByte := 0;
    nNonzeroBytes := 0;
    var b := 0;
    while 2 + b * 8 < |vout|
      invariant 0 <= b <= |vout| && nLastUsedByte == LastUsed(vout, b) && nNonzeroBytes == NonZero(vout, 0, b)
      decreases |vout| - b
    {
      var fZero := ByteIsZero(vout, b);
      NonZeroUpTo(vout, 0, b);
      if !fZero {
        nLastUsedByte := b + 1;
        nNonzeroBytes := nNonzeroBytes + 1;
      }
      b := b + 1;
    }
    nBytes := nLastUsedByte;
    EmptyBytes(vout, b);
    LastUsedEnds(vout, b, |vout|);
    NonZeroEnds(vout, 0, nBytes, b);
  }

  lemma EmptyBytes(vout: seq<TxOut>, m: nat)
    requires 2 + m * 8 >= |vout|
    ensures forall b :: m <= b < |vout| ==> MaskByte(vout, b) == 0
  {
    forall b | m <= b < |vout| ensures MaskByte(vout, b) == 0 { MaskOfNothing(vout, 2 + 8 * b, 0); }
  }

  /** What the bits from i on contribute to the mask byte. */
  function BitsLeft(vout: seq<TxOut>, k: nat, i: nat): nat
    requires i <= 8
  {
    Pow(2, i) * MaskBits(vout, k, i)
  }

  lemma AllBits(vout: seq<TxOut>, b: nat)
    ensures MaskByte(vout, b) == BitsLeft(vout, 2 + b * 8, 0)
  {
  }

  lemma NoBits(vout: seq<TxOut>, k: nat, i: nat)
    requires i <= 8 && (i == 8 || k + i >= |vout|)
    ensures BitsLeft(vout, k, i) == 0
  {
    MaskOfNothing(vout, k, i);
  }

  /** The inner loop of Serialize: the bits set are all different, so that setting one is adding it. */
  method MakeMask(vout: seq<TxOut>, b: nat) returns (chAvail: nat)
    ensures chAvail == MaskByte(vout, b)
  {
    hide BitsLeft, MaskByte, Pow;
    AllBits(vout, b);
    var k := 2 + b * 8;
    chAvail := 0;
    var i := 0;
    while i < 8 && k + i < |vout|
      invariant 0 <= i <= 8 && MaskByte(vout, b) == chAvail + BitsLeft(vout, k, i)
    {
      BitStep(vout, k, i);
      if !vout[k + i].IsNull() {
        chAvail := chAvail + Pow(2, i);
      }
      i := i + 1;
    }
    NoBits(vout, k, i);
  }

  lemma BitStep(vout: seq<TxOut>, k: nat, i: nat)
    requires i < 8
    ensures BitsLeft(vout, k, i) == (if Avail(vout, k + i) then Pow(2, i) else 0) + BitsLeft(vout, k, i + 1)
  {
    var p, m, a := Pow(2, i), MaskBits(vout, k, i + 1), if Avail(vout, k + i) then 1 else 0;
    assert Pow(2, i + 1) == 2 * p;
    Spread(p, a, m);
  }

  lemma Spread(p: nat, a: nat, m: nat)
    ensures p * (a + 2 * m) == a * p + 2 * p * m
  {
  }

  /** CTxOutCompressor, writing. */
  method WriteOut(os: Stream, o: TxOut, k: Keys) returns (r: Stream)
    requires o.value >= 0
    ensures r == os + OutBytes(o, k)
  {
    var nVal := CompressAmount(o.value);
    r := WriteVarInt(os, nVal);
    match CompressedScript(o.script, k)
    case Some((n, payload)) =>
      r := r + ([n] + payload);
    case None =>
      r := WriteVarInt(r, |o.script| + SPECIAL_SCRIPTS);
      r := r + o.script;
  }

  /** CCoins::Serialize. */
  method Serialize(os: Stream, c: CCoins, k: Keys) returns (r: Stream)
    requires Writable(c)
    ensures r == os + Serialized(c, k)
  {
    hide *;
    WritableParts(c);
    var nMaskSize, nMaskCode := CalcMaskSize(c.vout);
    var nCode := MakeHeader(c, nMaskCode);
    NaturalsCarry(nCode);
    var s := WriteVarInt(os, c.version);
    s := WriteVarInt(s, nCode);
    s := WriteMask(s, c.vout, nMaskSize);
    s := WriteOuts(s, c.vout, k);
    r := WriteVarInt(s, c.height);
    Joined(os, VarInt(Carried(c.version)), VarInt(Header(c)), MaskBytes(c.vout, 0, MaskSize(c.vout)),
           OutsBytes(c.vout, 0, k), VarInt(Carried(c.height)));
    SerializedIs(c, k);
  }

  lemma SerializedIs(c: CCoins, k: Keys)
    requires Writable(c)
    ensures Serialized(c, k)
      == VarInt(Carried(c.version)) + (VarInt(Header(c)) + (MaskBytes(c.vout, 0, MaskSize(c.vout)) +
      (OutsBytes(c.vout, 0, k) + VarInt(Carried(c.height)))))
  {
    hide Header, VarInt, MaskBytes, OutsBytes, Writable, MaskSize;
  }

  lemma Joined(o: Stream, a: Stream, b: Stream, c: Stream, d: Stream, e: Stream)
    ensures o + a + b + c + d + e == o + (a + (b + (c + (d + e))))
  {
  }

  method MakeHeader(c: CCoins, nMaskCode: nat) returns (nCode: nat)
    requires !Pruned(c) && nMaskCode == NonZero(c.vout, 0, MaskSize(c.vout))
    ensures nCode == Header(c)
  {
    hide NonZero, MaskSize, Pruned;
    var fFirst := |c.vout| > 0 && !c.vout[0].IsNull();
    var fSecond := |c.vout| > 1 && !c.vout[1].IsNull();
    SomethingLeft(c);
    assert fFirst || fSecond || nMaskCode > 0;
    nCode := 16 * (nMaskCode - (if fFirst || fSecond then 0 else 1)) + (if c.coinBase then 1 else 0)
      + (if c.coinStake then 2 else 0) + (if fFirst then 4 else 0) + (if fSecond then 8 else 0);
  }

  method WriteMask(os: Stream, vout: seq<TxOut>, nMaskSize: nat) returns (r: Stream)
    ensures r == os + MaskBytes(vout, 0, nMaskSize)
  {
    hide MaskByte;
    r := os;
    for b := 0 to nMaskSize
      invariant r + MaskBytes(vout, b, nMaskSize) == os + MaskBytes(vout, 0, nMaskSize)
    {
      var chAvail := MakeMask(vout, b);
      assert r + MaskBytes(vout, b, nMaskSize) == r + [chAvail] + MaskBytes(vout, b + 1, nMaskSize);
      r := r + [chAvail];
    }
  }

  method WriteOuts(os: Stream, vout: seq<TxOut>, k: Keys) returns (r: Stream)
    requires ValuesOk(vout)
    ensures r == os + OutsBytes(vout, 0, k)
  {
    hide OutBytes;
    r := os;
    for i := 0 to |vout|
      invariant r + OutsBytes(vout, i, k) == os + OutsBytes(vout, 0, k)
    {
      NextOut(r, vout, i, k);
      if !vout[i].IsNull() {
        r := WriteOut(r, vout[i], k);
      }
    }
  }

  lemma NextOut(r: Stream, vout: seq<TxOut>, i: nat, k: Keys)
    requires ValuesOk(vout) && i < |vout|
    ensures r + OutsBytes(vout, i, k) ==
      (if vout[i].IsNull() then r else r + OutBytes(vout[i], k)) + OutsBytes(vout, i + 1, k)
  {
    hide OutBytes;
    if !vout[i].IsNull() {
      assert r + OutsBytes(vout, i, k) == r + OutBytes(vout[i], k) + OutsBytes(vout, i + 1, k);
    }
  }

  // ----- Reading -----

  /** chAvail & (1 << p). */
  function BitSet(ch: nat, p: nat): bool
    decreases p
  {
    if p == 0 then ch % 2 == 1 else BitSet(ch / 2, p - 1)
  }

  lemma {:induction false} BitsAre(ch: nat, n: nat, p: nat)
    requires p < n
    ensures |BitsOf(ch, n)| == n && BitsOf(ch, n)[p] == BitSet(ch, p)
    decreases n
  {
    if p > 0 { BitsAre(ch / 2, n - 1, p - 1); } else if n > 1 { BitsAre(ch / 2, n - 1, 0); }
  }

  method PushBits(vAvail: seq<bool>, chAvail: nat) returns (r: seq<bool>)
    ensures r == vAvail + BitsOf(chAvail, 8)
  {
    hide BitsOf, BitSet;
    BitsAre(chAvail, 8, 0);
    r := vAvail;
    for p := 0 to 8
      invariant |BitsOf(chAvail, 8)| == 8 && r == vAvail + BitsOf(chAvail, 8)[..p]
    {
      BitsAre(chAvail, 8, p);
      assert BitsOf(chAvail, 8)[..p + 1] == BitsOf(chAvail, 8)[..p] + [BitSet(chAvail, p)];
      r := r + [BitSet(chAvail, p)];
    }
  }

  /** A result with what was read before in front. */
  function Behind<T>(before: seq<T>, r: Option<(seq<T>, Stream)>): Option<(seq<T>, Stream)> {
    match r
    case None => None
    case Some((rest, t)) => Some((before + rest, t))
  }

  lemma BehindTwo<T>(a: seq<T>, b: seq<T>, r: Option<(seq<T>, Stream)>)
    ensures Behind(a, Behind(b, r)) == Behind(a + b, r) && Behind([], r) == r
  {
    match r
    case None =>
    case Some((rest, t)) => assert a + (b + rest) == a + b + rest && [] + rest == rest;
  }

  lemma BehindEnd<T>(a: seq<T>, t: Stream)
    ensures Behind(a, Some(([], t))) == Some((a, t))
  {
    assert a + [] == a;
  }

  lemma NextMask(s: Stream, code: nat)
    ensures code == 0 ==> ReadMask(s, code) == Some(([], s))
    ensures code > 0 && s == [] ==> ReadMask(s, code) == None
    ensures code > 0 && s != [] ==>
      ReadMask(s, code) == Behind(BitsOf(s[0], 8), ReadMask(s[1..], if s[0] != 0 then code - 1 else code))
  {
    hide BitsOf;
  }

  /** The mask loop of Unserialize. */
  method ReadAvail(input: Stream, code: nat, vAvail: seq<bool>) returns (r: Option<(seq<bool>, Stream)>)
    ensures r == Behind(vAvail, ReadMask(input, code))
  {
    hide BitsOf, ReadMask, Behind;
    var s, nMaskCode, avail := input, code, vAvail;
    while nMaskCode > 0
      invariant Behind(vAvail, ReadMask(input, code)) == Behind(avail, ReadMask(s, nMaskCode))
      decreases |s|
    {
      NextMask(s, nMaskCode);
      if s == [] {
        NothingBehind(avail);
        return None;
      }
      var chAvail := s[0];
      s := s[1..];
      BehindTwo(avail, BitsOf(chAvail, 8), ReadMask(s, if chAvail != 0 then nMaskCode - 1 else nMaskCode));
      avail := PushBits(avail, chAvail);
      if chAvail != 0 {
        nMaskCode := nMaskCode - 1;
      }
    }
    NextMask(s, 0);
    BehindEnd(avail, s);
    r := Some((avail, s));
  }

  lemma NothingBehind<T>(a: seq<T>)
    ensures Behind(a, None) == None
  {
  }

  lemma NextRead(s: Stream, vAvail: seq<bool>, i: nat, k: Keys)
    requires i <= |vAvail|
    ensures i == |vAvail| ==> ReadOuts(s, vAvail, i, k) == Some(([], s))
    ensures i < |vAvail| ==>
      ReadOuts(s, vAvail, i, k) ==
        match if vAvail[i] then ReadOut(s, k) else Some((NULL_OUT, s))
        case None => None
        case Some((o, t)) => Behind([o], ReadOuts(t, vAvail, i + 1, k))
  {
    hide ReadOut;
  }

  /** The output loop of Unserialize. */
  method ReadAllOuts(input: Stream, vAvail: seq<bool>, k: Keys) returns (r: Option<(seq<TxOut>, Stream)>)
    ensures r == ReadOuts(input, vAvail, 0, k)
  {
    hide ReadOut, ReadOuts, Behind;
    var s, vout := input, [];
    var i := 0;
    BehindTwo([], [], ReadOuts(input, vAvail, 0, k));
    while i < |vAvail|
      invariant 0 <= i <= |vAvail| && ReadOuts(input, vAvail, 0, k) == Behind(vout, ReadOuts(s, vAvail, i, k))
    {
      NextRead(s, vAvail, i, k);
      var o := NULL_OUT;
      if vAvail[i] {
        var x := ReadOut(s, k);
        if x == None {
          NothingBehind(vout);
          return None;
        }
        o, s := x.value.0, x.value.1;
      }
      BehindTwo(vout, [o], ReadOuts(s, vAvail, i + 1, k));
      vout := vout + [o];
      i := i + 1;
    }
    NextRead(s, vAvail, i, k);
    BehindEnd(vout, s);
    r := Some((vout, s));
  }

  /** CCoins::Unserialize; None is the exception at the end of the stream. */
  method Unserialize(input: Stream, k: Keys) returns (r: Option<(CCoins, Stream)>)
    ensures r == Unserialized(input, k)
  {
    hide ReadVarInt, ReadMask, ReadOuts;
    var v := ReadVarIntFrom(input);
    if v == None {
      return None;
    }
    var code := ReadVarIntFrom(v.value.1);
    if code == None {
      return None;
    }
    var nCode := code.value.0;
    var vAvail := [nCode / 4 % 2 == 1, nCode / 8 % 2 == 1];
    var nMaskCode := nCode / 16 + (if vAvail[0] || vAvail[1] then 0 else 1);
    var avail := ReadAvail(code.value.1, nMaskCode, vAvail);
    if avail == None {
      return None;
    }
    var outs := ReadAllOuts(avail.value.1, avail.value.0, k);
    if outs == None {
      return None;
    }
    var h := ReadVarIntFrom(outs.value.1);
    if h == None {
      return None;
    }
    var c := Cleanup(CCoins(nCode % 2 == 1, nCode / 2 % 2 == 1, outs.value.0, h.value.0, v.value.0));
    r := Some((c, h.value.1));
  }
}
