/** EncodeBase58, DecodeBase58 and their checksummed variants (src/base58.cpp). */
module Base58 {
  import opened Wrappers
  import opened Positional

  /** unsigned char. */
  type Byte = x: nat | x < 256

  const NUMBERS: string := "123456789"
  const A_TO_H: string := "ABCDEFGH"
  const J_TO_N: string := "JKLMN"
  const P_TO_Z: string := "PQRSTUVWXYZ"
  const SMALL_A_TO_K: string := "abcdefghijk"
  const SMALL_M_TO_Z: string := "mnopqrstuvwxyz"

  /** pszBase58. */
  const ALPHABET: string := NUMBERS + A_TO_H + J_TO_N + P_TO_Z + SMALL_A_TO_K + SMALL_M_TO_Z

  // ----- The sizes of the digit buffers -----

  lemma MulBoth(a: nat, b: nat, x: nat, y: nat)
    requires a <= b && x <= y
    ensures a * x <= b * y
  {
    MulMono(b, a, x);
    MulMono(y, x, b);
  }

  lemma {:induction false} SixBits(n: nat)
    ensures Pow(58, n) <= Pow(2, 6 * n)
    decreases n
  {
    if n > 0 {
      SixBits(n - 1);
      PowSum(2, 6, 6 * (n - 1));
      assert Pow(2, 6) == 64;
      MulBoth(58, 64, Pow(58, n - 1), Pow(2, 6 * (n - 1)));
    }
  }

  lemma PowersOfTwo()
    ensures Pow(2, 41) == 2199023255552 && Pow(2, 47) == 140737488355328
  {
    PowSum(2, 6, 41);
    PowSum(2, 20, 21);
    assert Pow(2, 6) == 64 && Pow(2, 20) == 1048576 && Pow(2, 21) == 2097152;
  }

  /** Every so many digits one bit less than six per digit is enough. */
  lemma FewerBits()
    ensures Pow(58, 8) <= Pow(2, 47) && Pow(58, 15) <= Pow(2, 88) && Pow(58, 22) <= Pow(2, 129)
  {
    PowersOfTwo();
    assert Pow(58, 7) == 2207984167552 && Pow(58, 8) == 128063081718016;
    hide Pow;
    PowSum(58, 7, 8);
    PowSum(58, 7, 15);
    PowSum(2, 41, 47);
    PowSum(2, 41, 88);
  }

  lemma AfterFewer(n: nat, k: nat, e: nat)
    requires k <= n && Pow(58, k) <= Pow(2, e)
    ensures Pow(58, n) <= Pow(2, e + 6 * (n - k))
  {
    hide Pow;
    SixBits(n - k);
    PowSum(58, k, n - k);
    PowSum(2, e, 6 * (n - k));
    MulBoth(Pow(58, k), Pow(2, e), Pow(58, n - k), Pow(2, 6 * (n - k)));
  }

  lemma SmallPowers256(n: nat)
    requires n < 8
    ensures Pow(256, n) <= Pow(58, 11 * n / 8 + 1)
  {
    match n {
      case 0 => assert Pow(256, 0) == 1 && Pow(58, 1) == 58;
      case 1 => assert Pow(256, 1) == 256 && Pow(58, 2) == 3364;
      case 2 => assert Pow(256, 2) == 65536 && Pow(58, 3) == 195112;
      case 3 => assert Pow(256, 3) == 16777216 && Pow(58, 5) == 656356768;
      case 4 => assert Pow(256, 4) == 4294967296 && Pow(58, 6) == 38068692544;
      case 5 => assert Pow(256, 5) == 1099511627776 && Pow(58, 7) == 2207984167552;
      case 6 => assert Pow(256, 6) == 281474976710656 && Pow(58, 9) == 7427658739644928;
      case 7 => assert Pow(256, 7) == 72057594037927936 && Pow(58, 10) == 430804206899405824;
    }
  }

  /** 58^22 <= 2^129: a base 58 digit takes less than 129/22 bits. */
  lemma {:induction false} Bits58(n: nat)
    ensures Pow(58, n) <= Pow(2, 129 * n / 22 + 1)
    decreases n
  {
    hide Pow;
    FewerBits();
    if n < 8 {
      SixBits(n);
      PowMono(2, 6 * n, 129 * n / 22 + 1);
    } else if n < 15 {
      AfterFewer(n, 8, 47);
      PowMono(2, 47 + 6 * (n - 8), 129 * n / 22 + 1);
    } else if n < 22 {
      AfterFewer(n, 15, 88);
      PowMono(2, 88 + 6 * (n - 15), 129 * n / 22 + 1);
    } else {
      Bits58(n - 22);
      var e := 129 * (n - 22) / 22 + 1;
      assert 129 * n / 22 + 1 == 129 + e;
      PowSum(58, 22, n - 22);
      PowSum(2, 129, e);
      MulBoth(Pow(58, 22), Pow(2, 129), Pow(58, n - 22), Pow(2, e));
    }
  }

  /** 256^8 <= 58^11: eight bytes fit eleven base 58 digits. */
  lemma {:induction false} Digits256(n: nat)
    ensures Pow(256, n) <= Pow(58, 11 * n / 8 + 1)
    decreases n
  {
    hide Pow;
    if n < 8 {
      SmallPowers256(n);
    } else {
      Digits256(n - 8);
      var e := 11 * (n - 8) / 8 + 1;
      assert 11 * n / 8 + 1 == 11 + e;
      PowSum(256, 8, n - 8);
      PowSum(58, 11, e);
      EightBytes();
      MulBoth(Pow(256, 8), Pow(58, 11), Pow(256, n - 8), Pow(58, e));
    }
  }

  lemma EightBytes()
    ensures Pow(256, 8) <= Pow(58, 11)
  {
    assert Pow(256, 8) == 18446744073709551616 && Pow(58, 11) == 24986644000165537792;
  }

  lemma {:induction false} BytesAreBits(e: nat)
    ensures Pow(2, 8 * e) == Pow(256, e)
    decreases e
  {
    if e > 0 {
      BytesAreBits(e - 1);
      PowSum(2, 8, 8 * e - 8);
      assert Pow(2, 8) == 256;
    }
  }

  /** The buffer of DecodeBase58: 733/1000 of a byte per digit, rounded down, plus one. */
  lemma DecodeFits(n: nat)
    ensures Pow(58, n) <= Pow(256, n * 733 / 1000 + 1)
  {
    hide Pow;
    Bits58(n);
    var size := n * 733 / 1000 + 1;
    assert 129 * n / 22 + 1 <= 8 * size;
    PowMono(2, 129 * n / 22 + 1, 8 * size);
    BytesAreBits(size);
  }

  /** The buffer of EncodeBase58: 138/100 digits per byte, rounded down, plus one. */
  lemma EncodeFits(n: nat)
    ensures Pow(256, n) <= Pow(58, n * 138 / 100 + 1)
  {
    hide Pow;
    Digits256(n);
    assert 11 * n / 8 + 1 <= n * 138 / 100 + 1;
    PowMono(58, 11 * n / 8 + 1, n * 138 / 100 + 1);
  }

  // ----- The alphabet -----

  /** strchr(pszBase58, c) - pszBase58, from position i on. */
  function IndexFrom(c: char, i: nat): (r: Option<nat>)
    requires i <= |ALPHABET|
    ensures r.Some? ==> i <= r.value < |ALPHABET| && ALPHABET[r.value] == c
    decreases |ALPHABET| - i
  {
    if i == |ALPHABET| then None else if ALPHABET[i] == c then Some(i) else IndexFrom(c, i + 1)
  }

  function IndexOf(c: char): (r: Option<nat>)
    ensures r.Some? ==> r.value < |ALPHABET| && ALPHABET[r.value] == c
  {
    IndexFrom(c, 0)
  }

  /** The alphabet is in ASCII order. */
  function Code(d: nat): nat {
    if d < 9 then 49 + d else if d < 17 then 65 + d - 9 else if d < 22 then 74 + d - 17 else if d < 33 then 80 + d - 22
    else if d < 44 then 97 + d - 33 else 109 + d - 44
  }

  lemma PieceCode(d: nat)
    ensures |NUMBERS| == 9 && |A_TO_H| == 8 && |J_TO_N| == 5 && |P_TO_Z| == 11 && |SMALL_A_TO_K| == 11 &&
      |SMALL_M_TO_Z| == 14
    ensures d < 9 ==> NUMBERS[d] as int == Code(d)
    ensures 9 <= d < 17 ==> A_TO_H[d - 9] as int == Code(d)
    ensures 17 <= d < 22 ==> J_TO_N[d - 17] as int == Code(d)
    ensures 22 <= d < 33 ==> P_TO_Z[d - 22] as int == Code(d)
    ensures 33 <= d < 44 ==> SMALL_A_TO_K[d - 33] as int == Code(d)
    ensures 44 <= d < 58 ==> SMALL_M_TO_Z[d - 44] as int == Code(d)
  {
  }

  lemma AlphabetCode(d: nat)
    requires d < 58
    ensures |ALPHABET| == 58 && ALPHABET[d] as int == Code(d)
  {
    hide NUMBERS, A_TO_H, J_TO_N, P_TO_Z, SMALL_A_TO_K, SMALL_M_TO_Z;
    PieceCode(d);
    var e := NUMBERS + A_TO_H + J_TO_N;
    assert ALPHABET == e + P_TO_Z + SMALL_A_TO_K + SMALL_M_TO_Z;
    if d < 22 { assert ALPHABET[d] == e[d]; }
  }

  lemma {:induction false} IndexFromFinds(d: nat, i: nat)
    requires i <= d < 58 && |ALPHABET| == 58
    ensures IndexFrom(ALPHABET[d], i) == Some(d)
    decreases d - i
  {
    AlphabetCode(d);
    AlphabetCode(i);
    hide ALPHABET;
    if i < d { IndexFromFinds(d, i + 1); }
  }
}
