/** CCoins::CalcMaskSize, Serialize and Unserialize (src/coins.h, src/coins.cpp). */
module CoinsCodec {
  import opened Wrappers
  import opened Coins
  import opened VarInts
  import opened ScriptCodec

  // ----- The mask of available outputs -----

  predicate Avail(vout: seq<TxOut>, k: nat) {
    k < |vout| && !vout[k].IsNull()
  }

  /** The bits from i on of the mask byte for the outputs from k on. */
  function MaskBits(vout: seq<TxOut>, k: nat, i: nat): (r: nat)
    requires i <= 8
    decreases 8 - i
  {
    if i == 8 then 0 else (if Avail(vout, k + i) then 1 else 0) + 2 * MaskBits(vout, k, i + 1)
  }

  function MaskByte(vout: seq<TxOut>, b: nat): nat {
    MaskBits(vout, 2 + 8 * b, 0)
  }

  /** The number of mask bytes among the first n up to the last one that is not zero. */
  function LastUsed(vout: seq<TxOut>, n: nat): (r: nat)
    ensures r <= n && (r > 0 ==> MaskByte(vout, r - 1) != 0) && forall b :: r <= b < n ==> MaskByte(vout, b) == 0
    decreases n
  {
    if n == 0 then 0 else if MaskByte(vout, n - 1) != 0 then n else LastUsed(vout, n - 1)
  }

  function NonZero(vout: seq<TxOut>, from: nat, end: nat): (r: nat)
    requires from <= end
    ensures from < end && MaskByte(vout, end - 1) != 0 ==> r > 0
    decreases end - from
  {
    if from == end then 0 else (if MaskByte(vout, from) != 0 then 1 else 0) + NonZero(vout, from + 1, end)
  }

  /** nMaskSize; no byte beyond the outputs is needed. */
  function MaskSize(vout: seq<TxOut>): nat {
    LastUsed(vout, |vout|)
  }

  function MaskBytes(vout: seq<TxOut>, from: nat, end: nat): Stream
    requires from <= end
    decreases end - from
  {
    if from == end then [] else [MaskByte(vout, from)] + MaskBytes(vout, from + 1, end)
  }

  /** The low n bits of a byte, lowest first. */
  function BitsOf(ch: nat, n: nat): seq<bool>
    decreases n
  {
    if n == 0 then [] else [ch % 2 == 1] + BitsOf(ch / 2, n - 1)
  }

  function Avails(vout: seq<TxOut>, from: nat, end: nat): (r: seq<bool>)
    requires from <= end
    ensures |r| == end - from
    ensures forall i :: 0 <= i < |r| ==> r[i] == Avail(vout, from + i)
    decreases end - from
  {
    if from == end then [] else [Avail(vout, from)] + Avails(vout, from + 1, end)
  }

  lemma {:induction false} BitsBack(vout: seq<TxOut>, k: nat, i: nat)
    requires i <= 8
    ensures BitsOf(MaskBits(vout, k, i), 8 - i) == Avails(vout, k + i, k + 8)
    decreases 8 - i
  {
    hide *;
    if i == 8 {
      NoBitsLeft(vout, k);
    } else {
      BitsBack(vout, k, i + 1);
      MaskStep(vout, k, i);
      BitsOfTwice(if Avail(vout, k + i) then 1 else 0, MaskBits(vout, k, i + 1), 8 - i);
      AvailsFirst(vout, k + i, k + 8);
    }
  }

  lemma NoBitsLeft(vout: seq<TxOut>, k: nat)
    ensures forall x: nat {:trigger BitsOf(x, 0)} :: BitsOf(x, 0) == []
    ensures Avails(vout, k + 8, k + 8) == []
  {
  }

  lemma MaskStep(vout: seq<TxOut>, k: nat, i: nat)
    requires i < 8
    ensures MaskBits(vout, k, i) == (if Avail(vout, k + i) then 1 else 0) + 2 * MaskBits(vout, k, i + 1)
  {
    hide Avail;
  }

  lemma Half(a: nat, m: nat)
    requires a <= 1
    ensures (a + 2 * m) % 2 == a && (a + 2 * m) / 2 == m
  {
  }

  lemma BitsOfTwice(a: nat, m: nat, n: nat)
    requires a <= 1 && n > 0
    ensures BitsOf(a + 2 * m, n) == [a == 1] + BitsOf(m, n - 1)
  {
    Half(a, m);
  }

  lemma AvailsFirst(vout: seq<TxOut>, from: nat, end: nat)
    requires from < end
    ensures Avails(vout, from, end) == [Avail(vout, from)] + Avails(vout, from + 1, end)
  {
    hide Avail;
  }

  lemma {:induction false} MaskOfNothing(vout: seq<TxOut>, k: nat, i: nat)
    requires i <= 8
    ensures MaskBits(vout, k, i) == 0 <==> forall j {:trigger Avail(vout, j)} :: k + i <= j < k + 8 ==> !Avail(vout, j)
    decreases 8 - i
  {
    if i < 8 { MaskOfNothing(vout, k, i + 1); }
  }

  /** No output is available behind the mask. */
  lemma BehindMask(vout: seq<TxOut>, k: nat)
    requires k >= 2 + 8 * MaskSize(vout)
    ensures !Avail(vout, k)
  {
    if k < |vout| {
      var b := (k - 2) / 8;
      assert k == 2 + 8 * b + (k - 2) % 8;
      assert b < |vout| && MaskSize(vout) <= b;
      assert MaskByte(vout, b) == 0;
      MaskOfNothing(vout, 2 + 8 * b, 0);
    }
  }

  // ----- The format -----

  /** The loop of Unserialize over the mask: it ends with the last of `code` non-zero bytes. */
  function ReadMask(s: Stream, code: nat): Option<(seq<bool>, Stream)>
    decreases |s|
  {
    if code == 0 then Some(([], s))
    else if s == [] then None
    else
      match ReadMask(s[1..], if s[0] != 0 then code - 1 else code)
      case None => None
      case Some((bits, t)) => Some((BitsOf(s[0], 8) + bits, t))
  }

  /** The available outputs from i on. */
  function OutsBytes(vout: seq<TxOut>, i: nat, k: Keys): Stream
    requires ValuesOk(vout)
    decreases |vout| - i
  {
    if i >= |vout| then []
    else (if vout[i].IsNull() then [] else OutBytes(vout[i], k)) + OutsBytes(vout, i + 1, k)
  }

  /** The loop of Unserialize over the outputs. */
  function ReadOuts(s: Stream, avail: seq<bool>, i: nat, k: Keys): Option<(seq<TxOut>, Stream)>
    requires i <= |avail|
    decreases |avail| - i
  {
    if i == |avail| then Some(([], s))
    else
      match if avail[i] then ReadOut(s, k) else Some((NULL_OUT, s))
      case None => None
      case Some((o, t)) =>
        match ReadOuts(t, avail, i + 1, k)
        case None => None
        case Some((os, u)) => Some(([o] + os, u))
  }

  predicate ValuesOk(vout: seq<TxOut>) {
    forall i {:trigger vout[i]} :: 0 <= i < |vout| && !vout[i].IsNull() ==> vout[i].value >= 0
  }

  /** nCode: coinbase, coinstake, the first two outputs, and the number of non-zero mask bytes. */
  function Header(c: CCoins): nat
    requires !Pruned(c)
  {
    var n := NonZero(c.vout, 0, MaskSize(c.vout));
    var f, s := Avail(c.vout, 0), Avail(c.vout, 1);
    SomethingLeft(c);
    16 * (if f || s then n else n - 1)
    + (if c.coinBase then 1 else 0) + (if c.coinStake then 2 else 0) + (if f then 4 else 0) + (if s then 8 else 0)
  }

  /** The assertion in Serialize. */
  lemma SomethingLeft(c: CCoins)
    requires !Pruned(c)
    ensures Avail(c.vout, 0) || Avail(c.vout, 1) || NonZero(c.vout, 0, MaskSize(c.vout)) > 0
  {
    var k :| 0 <= k < |c.vout| && !c.vout[k].IsNull();
    if k >= 2 && MaskSize(c.vout) == 0 { BehindMask(c.vout, k); }
  }

  /** What can be serialized: not pruned, no unspent output with a negative value. */
  predicate Writable(c: CCoins) {
    !Pruned(c) && ValuesOk(c.vout)
  }

  function Serialized(c: CCoins, k: Keys): Stream
    requires Writable(c)
  {
    VarInt(Carried(c.version)) + (VarInt(Header(c)) + (MaskBytes(c.vout, 0, MaskSize(c.vout)) +
      (OutsBytes(c.vout, 0, k) + VarInt(Carried(c.height)))))
  }

  /** What comes back of c: a negative version or height loses all but its low seven bits. */
  function Stored(c: CCoins): CCoins {
    Trimmed(c).(version := Carried(c.version), height := Carried(c.height))
  }

  function MaskCode(code: nat): nat {
    code / 16 + if code / 4 % 2 == 1 || code / 8 % 2 == 1 then 0 else 1
  }

  /** Unserialize, once version and header code are known. */
  function ReadBody(s2: Stream, version: nat, code: nat, k: Keys): Option<(CCoins, Stream)> {
    match ReadMask(s2, MaskCode(code))
    case None => None
    case Some((bits, s3)) =>
      match ReadOuts(s3, [code / 4 % 2 == 1, code / 8 % 2 == 1] + bits, 0, k)
      case None => None
      case Some((vout, s4)) =>
        match ReadVarInt(s4)
        case None => None
        case Some((height, s5)) =>
          Some((Trimmed(CCoins(code % 2 == 1, code / 2 % 2 == 1, vout, height, version)), s5))
  }

  function Unserialized(s: Stream, k: Keys): Option<(CCoins, Stream)> {
    match ReadVarInt(s)
    case None => None
    case Some((version, s1)) =>
      match ReadVarInt(s1)
      case None => None
      case Some((code, s2)) => ReadBody(s2, version, code, k)
  }

  // ----- Round trip -----

  /** The count of non-zero bytes ends the loop exactly behind the last mask byte. */
  lemma {:induction false} MaskBack(vout: seq<TxOut>, b: nat, m: nat, t: Stream)
    requires b <= m && (m > 0 ==> MaskByte(vout, m - 1) != 0)
    ensures ReadMask(MaskBytes(vout, b, m) + t, NonZero(vout, b, m)) == Some((Avails(vout, 2 + 8 * b, 2 + 8 * m), t))
    decreases m - b
  {
    hide *;
    if b == m {
      NoMask(vout, m, t);
    } else {
      MaskUnroll(vout, b, m, t);
      ReadMaskStep(MaskByte(vout, b), MaskBytes(vout, b + 1, m) + t, NonZero(vout, b, m));
      MaskBack(vout, b + 1, m, t);
      ByteBack(vout, b);
      AvailsSplit(vout, 2 + 8 * b, 2 + 8 * b + 8, 2 + 8 * m);
    }
  }

  lemma NoMask(vout: seq<TxOut>, m: nat, t: Stream)
    ensures MaskBytes(vout, m, m) + t == t && NonZero(vout, m, m) == 0
    ensures ReadMask(t, 0) == Some((Avails(vout, 2 + 8 * m, 2 + 8 * m), t))
  {
  }

  lemma MaskUnroll(vout: seq<TxOut>, b: nat, m: nat, t: Stream)
    requires b < m && MaskByte(vout, m - 1) != 0
    ensures MaskBytes(vout, b, m) + t == [MaskByte(vout, b)] + (MaskBytes(vout, b + 1, m) + t)
    ensures NonZero(vout, b, m) == NonZero(vout, b + 1, m) + (if MaskByte(vout, b) != 0 then 1 else 0) > 0
  {
    hide MaskByte;
  }

  lemma AvailsSplit(vout: seq<TxOut>, a: nat, b: nat, c: nat)
    requires a <= b <= c
    ensures Avails(vout, a, b) + Avails(vout, b, c) == Avails(vout, a, c)
  {
    hide Avail;
  }

  lemma ReadMaskStep(x: nat, rest: Stream, code: nat)
    requires code > 0
    ensures ReadMask([x] + rest, code) ==
      match ReadMask(rest, if x != 0 then code - 1 else code)
      case None => None
      case Some((bits, t)) => Some((BitsOf(x, 8) + bits, t))
  {
    hide BitsOf;
    assert ([x] + rest)[1..] == rest;
  }

  lemma ByteBack(vout: seq<TxOut>, b: nat)
    ensures BitsOf(MaskByte(vout, b), 8) == Avails(vout, 2 + 8 * b, 2 + 8 * b + 8)
  {
    BitsBack(vout, 2 + 8 * b, 0);
  }

  /** The outputs from i to n as Unserialize leaves them. */
  function Kept(vout: seq<TxOut>, i: nat, n: nat): (r: seq<TxOut>)
    requires i <= n
    ensures |r| == n - i && forall j :: 0 <= j < |r| ==> r[j] == if Avail(vout, i + j) then vout[i + j] else NULL_OUT
    decreases n - i
  {
    if i == n then [] else [if Avail(vout, i) then vout[i] else NULL_OUT] + Kept(vout, i + 1, n)
  }

  lemma {:induction false} NothingWritten(vout: seq<TxOut>, i: nat, k: Keys)
    requires ValuesOk(vout) && forall j :: i <= j < |vout| ==> !Avail(vout, j)
    ensures OutsBytes(vout, i, k) == []
    decreases |vout| - i
  {
    if i < |vout| {
      assert !Avail(vout, i);
      NothingWritten(vout, i + 1, k);
    }
  }

  lemma {:induction false} OutsBack(vout: seq<TxOut>, avail: seq<bool>, i: nat, k: Keys, t: Stream)
    requires KeysOk(k) && ValuesOk(vout) && i <= |avail| && avail == Avails(vout, 0, |avail|)
    requires forall j :: |avail| <= j < |vout| ==> !Avail(vout, j)
    ensures ReadOuts(OutsBytes(vout, i, k) + t, avail, i, k) == Some((Kept(vout, i, |avail|), t))
    decreases |avail| - i
  {
    hide KeysOk, OutBytes, ReadOut;
    if i == |avail| {
      NothingWritten(vout, i, k);
      assert [] + t == t;
    } else {
      OutsBack(vout, avail, i + 1, k, t);
      var rest := OutsBytes(vout, i + 1, k) + t;
      assert avail[i] == Avail(vout, i);
      if Avail(vout, i) {
        OutBack(vout[i], k, rest);
        assert OutsBytes(vout, i, k) + t == OutBytes(vout[i], k) + rest;
      } else {
        if i < |vout| { assert OutsBytes(vout, i, k) == OutsBytes(vout, i + 1, k); }
        assert OutsBytes(vout, i, k) + t == rest;
      }
    }
  }

  /** Cleanup makes the outputs what they were, cleaned up. */
  lemma KeptTrims(vout: seq<TxOut>, n: nat)
    requires (forall j :: n <= j < |vout| ==> !Avail(vout, j))
    requires Canonical(vout)
    ensures Trim(Kept(vout, 0, n)) == Trim(vout)
  {
    var a, r := Kept(vout, 0, n), Trim(vout);
    assert |r| <= n by { if |r| > n { assert Avail(vout, |r| - 1); } }
    forall i | |r| <= i < n ensures a[i].IsNull() { assert !Avail(vout, i); }
    if |r| > 0 { assert Avail(vout, |r| - 1); }
    assert forall i :: 0 <= i < |r| ==> a[i] == vout[i];
    TrimUnique(a, |r|);
    assert a[..|r|] == r;
  }

  lemma HeaderBack(c: CCoins)
    requires !Pruned(c)
    ensures var code := Header(c);
      && (code % 2 == 1 <==> c.coinBase) && (code / 2 % 2 == 1 <==> c.coinStake)
      && (code / 4 % 2 == 1 <==> Avail(c.vout, 0)) && (code / 8 % 2 == 1 <==> Avail(c.vout, 1))
      && MaskCode(code) == NonZero(c.vout, 0, MaskSize(c.vout))
  {
    hide NonZero, MaskSize, Pruned, Avail;
    SomethingLeft(c);
    var n := NonZero(c.vout, 0, MaskSize(c.vout));
    var f, s := Avail(c.vout, 0), Avail(c.vout, 1);
    FourBits(if f || s then n else n - 1, if c.coinBase then 1 else 0, if c.coinStake then 1 else 0,
             if f then 1 else 0, if s then 1 else 0);
  }

  lemma FourBits(n: nat, a: nat, b: nat, c: nat, d: nat)
    requires a <= 1 && b <= 1 && c <= 1 && d <= 1
    ensures var x := 16 * n + a + 2 * b + 4 * c + 8 * d;
      x % 2 == a && x / 2 % 2 == b && x / 4 % 2 == c && x / 8 % 2 == d && x / 16 == n
  {
    var x3 := d + 2 * n;
    var x2 := c + 2 * x3;
    var x1 := b + 2 * x2;
    Half(d, n);
    Half(c, x3);
    Half(b, x2);
    Half(a, x1);
    Halves(a + 2 * x1);
  }

  lemma Halves(x: nat)
    ensures x / 4 == x / 2 / 2 && x / 8 == x / 2 / 2 / 2 && x / 16 == x / 2 / 2 / 2 / 2
  {
  }

  /** The outputs of c are read back from what is behind the header. */
  lemma BodyBack(c: CCoins, k: Keys, version: nat, t: Stream)
    requires Writable(c) && KeysOk(k) && Canonical(c.vout)
    ensures ReadBody(MaskBytes(c.vout, 0, MaskSize(c.vout)) +
      (OutsBytes(c.vout, 0, k) + (VarInt(Carried(c.height)) + t)),
                     version, Header(c), k) == Some((Trimmed(c).(version := version, height := Carried(c.height)), t))
  {
    hide *;
    WritableParts(c);
    var m := MaskSize(c.vout);
    var s4 := VarInt(Carried(c.height)) + t;
    var s3 := OutsBytes(c.vout, 0, k) + s4;
    var s2 := MaskBytes(c.vout, 0, m) + s3;
    HeaderBack(c);
    LastIsUsed(c.vout);
    MaskBack(c.vout, 0, m, s3);
    var avail := Avails(c.vout, 0, 2 + 8 * m);
    FirstTwo(c.vout, 2 + 8 * m);
    forall j | 2 + 8 * m <= j < |c.vout| ensures !Avail(c.vout, j) { BehindMask(c.vout, j); }
    OutsBack(c.vout, avail, 0, k, s4);
    ReadBack(Carried(c.height), t);
    KeptTrims(c.vout, 2 + 8 * m);
    BodyIs(s2, version, Header(c), k, Avails(c.vout, 2, 2 + 8 * m), s3, Kept(c.vout, 0, 2 + 8 * m), s4,
           Carried(c.height), t);
    SameTrim(c, Kept(c.vout, 0, 2 + 8 * m), version, Carried(c.height));
  }

  lemma WritableParts(c: CCoins)
    requires Writable(c)
    ensures ValuesOk(c.vout) && !Pruned(c)
  {
  }

  lemma SameTrim(c: CCoins, vout: seq<TxOut>, version: nat, height: nat)
    requires Trim(vout) == Trim(c.vout)
    ensures Trimmed(CCoins(c.coinBase, c.coinStake, vout, height, version))
      == Trimmed(c).(version := version, height := height)
  {
  }

  lemma BodyIs(s2: Stream, version: nat, code: nat, k: Keys, bits: seq<bool>, s3: Stream, vout: seq<TxOut>, s4: Stream,
               height: nat, s5: Stream)
    requires ReadMask(s2, MaskCode(code)) == Some((bits, s3)) && ReadVarInt(s4) == Some((height, s5))
    requires ReadOuts(s3, [code / 4 % 2 == 1, code / 8 % 2 == 1] + bits, 0, k) == Some((vout, s4))
    ensures ReadBody(s2, version, code, k) ==
      Some((Trimmed(CCoins(code % 2 == 1, code / 2 % 2 == 1, vout, height, version)), s5))
  {
    hide ReadMask, ReadOuts, ReadVarInt, MaskCode, Trimmed;
  }

  lemma LastIsUsed(vout: seq<TxOut>)
    ensures MaskSize(vout) > 0 ==> MaskByte(vout, MaskSize(vout) - 1) != 0
  {
  }

  lemma FirstTwo(vout: seq<TxOut>, n: nat)
    requires n >= 2
    ensures [Avail(vout, 0), Avail(vout, 1)] + Avails(vout, 2, n) == Avails(vout, 0, n)
  {
  }

  /**
   Reading what was written gives the coins back, cleaned up, and stops right behind them; but a
   negative version or height comes back as its low seven bits.  Spent outputs must be what SetNull
   leaves, as they are not written.
   */
  lemma RoundTrip(c: CCoins, k: Keys, t: Stream)
    requires Writable(c) && KeysOk(k) && Canonical(c.vout)
    ensures Unserialized(Serialized(c, k) + t, k) == Some((Stored(c), t))
    ensures Normal(c) ==> (Stored(c) == c <==> c.version >= 0 && c.height >= 0)
  {
    hide KeysOk, VarInt, ReadVarInt, Header, MaskBytes, OutsBytes, Pruned, ReadBody, MaskSize;
    var body := MaskBytes(c.vout, 0, MaskSize(c.vout)) + (OutsBytes(c.vout, 0, k) + (VarInt(Carried(c.height)) + t));
    assert Serialized(c, k) + t == VarInt(Carried(c.version)) + (VarInt(Header(c)) + body);
    ReadBack(Carried(c.version), VarInt(Header(c)) + body);
    ReadBack(Header(c), body);
    BodyBack(c, k, Carried(c.version), t);
    if Normal(c) { TrimUnique(c.vout, |c.vout|); assert c.vout[..|c.vout|] == c.vout; }
  }
}
