/** The conversions of src/base58.cpp, what they compute, and that they are inverse to each other. */
module Base58Codec {
  import opened Wrappers
  import opened Positional
  import opened Base58

  /** isspace in the C locale. */
  predicate IsSpace(c: char) {
    c == ' ' || '\t' <= c <= '\r'
  }

  /** Blank, tab, line feed, vertical tab, form feed and carriage return, by their codes. */
  lemma SpaceCodes(c: char)
    ensures IsSpace(c) <==> c as int in {32, 9, 10, 11, 12, 13}
  {
    if IsSpace(c) && c != ' ' { assert 9 <= c as int <= 13; }
  }

  /** The first position from i on that holds no white space. */
  function SkipSpaces(s: string, i: nat): (r: nat)
    requires i <= |s|
    ensures i <= r <= |s| && (r < |s| ==> !IsSpace(s[r])) && forall j :: i <= j < r ==> IsSpace(s[j])
    decreases |s| - i
  {
    if i < |s| && IsSpace(s[i]) then SkipSpaces(s, i + 1) else i
  }

  /** The first position from i on that holds white space. */
  function WordEnd(s: string, i: nat): (r: nat)
    requires i <= |s|
    ensures i <= r <= |s| && (r < |s| ==> IsSpace(s[r])) && forall j :: i <= j < r ==> !IsSpace(s[j])
    decreases |s| - i
  {
    if i < |s| && !IsSpace(s[i]) then WordEnd(s, i + 1) else i
  }

  /** How many of the digits from i on are zero before the first other one. */
  function LeadingZeros(d: seq<nat>, i: nat): (r: nat)
    requires i <= |d|
    ensures r <= |d| - i && (i + r < |d| ==> d[i + r] != 0) && forall j :: i <= j < i + r ==> d[j] == 0
    decreases |d| - i
  {
    if i < |d| && d[i] == 0 then 1 + LeadingZeros(d, i + 1) else 0
  }

  predicate OverAlphabet(w: string) {
    forall i :: 0 <= i < |w| ==> IndexOf(w[i]).Some?
  }

  function DigitsIn(w: string): (d: seq<nat>)
    requires OverAlphabet(w)
    ensures |d| == |w| && DigitsOk(d, 58) && forall i :: 0 <= i < |w| ==> IndexOf(w[i]) == Some(d[i])
    decreases |w|
  {
    AlphabetCode(0);
    if w == [] then [] else DigitsIn(w[..|w| - 1]) + [IndexOf(w[|w| - 1]).value]
  }

  function Chars(d: seq<nat>): (w: string)
    requires DigitsOk(d, 58)
    ensures |w| == |d| && |ALPHABET| == 58 && forall i :: 0 <= i < |d| ==> w[i] == ALPHABET[d[i]]
    decreases |d|
  {
    AlphabetCode(0);
    if d == [] then [] else Chars(d[..|d| - 1]) + [ALPHABET[d[|d| - 1]]]
  }

  function Zeros(n: nat): seq<nat> {
    seq(n, _ => 0)
  }

  /** The bytes a number in another base stands for, with a zero in front for every leading zero there. */
  function Rebased(d: seq<nat>, from: nat, target: nat): (r: seq<nat>)
    requires target > 1
    ensures DigitsOk(r, target)
  {
    DigitsAreCanonical(Val(d, from), target);
    Zeros(LeadingZeros(d, 0)) + Digits(Val(d, from), target)
  }

  function Encoded(v: seq<Byte>): string {
    Chars(Rebased(v, 256, 58))
  }

  /** The word between the white space at both ends. */
  function Word(s: string): string {
    var a := SkipSpaces(s, 0);
    s[a..WordEnd(s, a)]
  }

  function Decoded(s: string): Option<seq<Byte>> {
    var end := WordEnd(s, SkipSpaces(s, 0));
    if OverAlphabet(Word(s)) && SkipSpaces(s, end) == |s| then Some(Rebased(DigitsIn(Word(s)), 58, 256)) else None
  }

  // ----- Inverse to each other -----

  /** Changing the base and back. */
  lemma RebasedBack(d: seq<nat>, from: nat, target: nat)
    requires from > 1 && target > 1 && DigitsOk(d, from)
    ensures Rebased(Rebased(d, from, target), target, from) == d
  {
    hide Val, Digits;
    RebasedShape(d, from, target);
    var z := LeadingZeros(d, 0);
    var r := Rebased(d, from, target);
    RebasedShape(r, target, from);
    Stripped(d, from);
    assert Zeros(z) + d[z..] == d;
  }

  /** Changing the base keeps the number of leading zeros and the value. */
  lemma RebasedShape(d: seq<nat>, from: nat, target: nat)
    requires from > 1 && target > 1 && DigitsOk(d, from)
    ensures var r := Rebased(d, from, target);
      LeadingZeros(r, 0) == LeadingZeros(d, 0) && Val(r, target) == Val(d, from)
  {
    hide Val, Digits;
    var z := LeadingZeros(d, 0);
    var n := Val(d, from);
    var r := Rebased(d, from, target);
    DigitsAreCanonical(n, target);
    assert r[z..] == Digits(n, target);
    ZerosAre(r, z);
    ValWithoutZeros(r, target, z);
  }

  lemma {:induction false} ZerosFrom(d: seq<nat>, i: nat, z: nat)
    requires i <= z <= |d| && (z < |d| ==> d[z] != 0) && forall j :: i <= j < z ==> d[j] == 0
    ensures LeadingZeros(d, i) == z - i
    decreases z - i
  {
    if i < z { ZerosFrom(d, i + 1, z); }
  }

  lemma ZerosAre(d: seq<nat>, z: nat)
    requires z <= |d| && (z < |d| ==> d[z] != 0) && forall j :: 0 <= j < z ==> d[j] == 0
    ensures LeadingZeros(d, 0) == z
  {
    ZerosFrom(d, 0, z);
  }

  /** Without its leading zeros a number is the digits of its value. */
  lemma Stripped(d: seq<nat>, b: nat)
    requires b > 1 && DigitsOk(d, b)
    ensures d[LeadingZeros(d, 0)..] == Digits(Val(d, b), b)
  {
    var z := LeadingZeros(d, 0);
    ValWithoutZeros(d, b, z);
    DigitsOfVal(d[z..], b);
  }

  lemma DigitsOfChars(d: seq<nat>)
    requires DigitsOk(d, 58)
    ensures OverAlphabet(Chars(d)) && DigitsIn(Chars(d)) == d
  {
    AlphabetCode(0);
    forall i | 0 <= i < |d| ensures IndexOf(Chars(d)[i]) == Some(d[i]) { IndexFromFinds(d[i], 0); }
  }

  lemma CharsOfDigits(w: string)
    requires OverAlphabet(w)
    ensures Chars(DigitsIn(w)) == w
  {
    AlphabetCode(0);
  }

  lemma NoSpaceInAlphabet(c: char)
    requires IndexOf(c).Some?
    ensures !IsSpace(c)
  {
    AlphabetCode(0);
    AlphabetCode(IndexOf(c).value);
  }

  lemma {:induction false} EndOfWord(s: string, i: nat)
    requires i <= |s| && forall j :: i <= j < |s| ==> !IsSpace(s[j])
    ensures WordEnd(s, i) == |s|
    decreases |s| - i
  {
    if i < |s| { EndOfWord(s, i + 1); }
  }

  /** A string over the alphabet is its own word. */
  lemma WholeWord(w: string)
    requires OverAlphabet(w)
    ensures Word(w) == w && Decoded(w) == Some(Rebased(DigitsIn(w), 58, 256))
  {
    forall j | 0 <= j < |w| ensures !IsSpace(w[j]) { NoSpaceInAlphabet(w[j]); }
    EndOfWord(w, 0);
    assert w[0..|w|] == w;
  }

  /** DecodeBase58 gives back every byte string from what EncodeBase58 made of it. */
  lemma DecodeEncode(v: seq<Byte>)
    ensures Decoded(Encoded(v)) == Some(v)
  {
    hide Rebased, Decoded, DigitsIn, Chars;
    var d := Rebased(v, 256, 58);
    DigitsOfChars(d);
    WholeWord(Chars(d));
    RebasedBack(v, 256, 58);
  }

  /** Whatever DecodeBase58 accepts is white space around a word over the alphabet, and encodes to that word. */
  lemma EncodeDecode(s: string)
    ensures Decoded(s).Some? ==> Encoded(Decoded(s).value) == Word(s) && OverAlphabet(Word(s))
    ensures OverAlphabet(s) ==> Decoded(s).Some? && Encoded(Decoded(s).value) == s
  {
    hide Rebased, DigitsIn, Chars, Word;
    if Decoded(s).Some? {
      RebasedBack(DigitsIn(Word(s)), 58, 256);
      CharsOfDigits(Word(s));
    }
    if OverAlphabet(s) { WholeWord(s); }
  }

  /** Two byte strings never share an encoding. */
  lemma EncodeInjective(v: seq<Byte>, w: seq<Byte>)
    requires Encoded(v) == Encoded(w)
    ensures v == w
  {
    hide Encoded, Decoded;
    DecodeEncode(v);
    DecodeEncode(w);
  }

  // ----- The conversions -----

  /** Room for one more digit: the number of digits read so far bounds the value. */
  lemma Room(d: seq<nat>, from: nat, target: nat, n: nat, size: nat)
    requires from > 0 && d != [] && DigitsOk(d, from) && |d| <= n && Pow(from, n) <= Pow(target, size)
    ensures Val(d[..|d| - 1], from) * from + d[|d| - 1] == Val(d, from) < Pow(target, size)
  {
    hide Pow;
    ValOfAppend(d[..|d| - 1], d[|d| - 1], from);
    assert d[..|d| - 1] + [d[|d| - 1]] == d;
    HeadBound(d, from, |d|);
    PowMono(from, |d|, n);
  }

  lemma {:induction false} NoValue(d: seq<nat>, b: nat, k: nat)
    requires k <= |d| && forall i :: 0 <= i < |d| ==> d[i] == 0
    ensures Head(d, b, k) == 0
    decreases k
  {
    if k > 0 { NoValue(d, b, k - 1); }
  }

  /** Zeros in front and the buffer without its zeros are the converted number. */
  lemma Assembled(d: seq<nat>, z: nat, rest: seq<nat>, a: seq<nat>, skip: nat, from: nat, target: nat)
    requires from > 1 && target > 1 && DigitsOk(d, from) && DigitsOk(a, target)
    requires z == LeadingZeros(d, 0) && rest == d[z..] && Val(a, target) == Val(rest, from) &&
      skip == LeadingZeros(a, 0)
    ensures DigitsOk(a[skip..], target) && Zeros(z) + a[skip..] == Rebased(d, from, target)
  {
    Stripped(a, target);
    ValWithoutZeros(d, from, z);
  }

  /** A zeroed buffer. */
  method NewBuffer(size: nat, b: nat) returns (a: array<nat>)
    requires b > 0
    ensures fresh(a) && a.Length == size && DigitsOk(a[..], b) && Val(a[..], b) == 0
  {
    a := new nat[size](_ => 0);
    NoValue(a[..], b, size);
  }

  /** Skip leading zeroes of the buffer. */
  method SkipZeros(a: array<nat>) returns (it: nat)
    ensures it == LeadingZeros(a[..], 0)
  {
    it := 0;
    while it < a.Length && a[it] == 0
      invariant 0 <= it <= a.Length && forall j :: 0 <= j < it ==> a[j] == 0
    {
      it := it + 1;
    }
    ZerosAre(a[..], it);
  }

  /** EncodeBase58. */
  method EncodeBase58(v: seq<Byte>) returns (str: string)
    ensures str == Encoded(v)
  {
    hide Rebased, Chars, Val, Pow;
    var begin := 0;
    while begin < |v| && v[begin] == 0
      invariant 0 <= begin <= |v| && forall j :: 0 <= j < begin ==> v[j] == 0
    {
      begin := begin + 1;
    }
    ZerosAre(v, begin);
    var zeroes := begin;
    ghost var rest: seq<nat> := v[begin..];
    var size := (|v| - begin) * 138 / 100 + 1;
    EncodeFits(|v| - begin);
    var b58 := NewBuffer(size, 58);
    ValOfNothing(256);
    while begin < |v|
      invariant zeroes <= begin <= |v| && b58.Length == size && DigitsOk(b58[..], 58)
      invariant Val(b58[..], 58) == Val(rest[..begin - zeroes], 256)
    {
      ghost var read := rest[..begin - zeroes + 1];
      assert read[..|read| - 1] == rest[..begin - zeroes] && read[|read| - 1] == v[begin];
      Room(read, 256, 58, |rest|, size);
      MultiplyAdd(b58, 58, 256, v[begin]);
      begin := begin + 1;
    }
    assert rest[..begin - zeroes] == rest;
    var it := SkipZeros(b58);
    Assembled(v, zeroes, rest, b58[..], it, 256, 58);
    str := Translate(zeroes, b58[it..]);
  }

  lemma ValOfNothing(b: nat)
    ensures Val([], b) == 0
  {
  }

  /** The last loop of EncodeBase58. */
  method Translate(zeroes: nat, d: seq<nat>) returns (str: string)
    requires DigitsOk(d, 58)
    ensures DigitsOk(Zeros(zeroes) + d, 58) && str == Chars(Zeros(zeroes) + d)
  {
    hide ALPHABET;
    AlphabetCode(0);
    str := seq(zeroes, _ => '1');
    for i := 0 to |d|
      invariant |str| == zeroes + i
      invariant forall j :: 0 <= j < zeroes ==> str[j] == ALPHABET[0]
      invariant forall j :: 0 <= j < i ==> str[zeroes + j] == ALPHABET[d[j]]
    {
      str := str + [ALPHABET[d[i]]];
    }
    assert str == Chars(Zeros(zeroes) + d);
  }

  lemma DigitsOfWord(s: string, a: nat, i: nat)
    requires a < i <= |s| && OverAlphabet(s[a..i])
    ensures OverAlphabet(s[a..i - 1]) && IndexOf(s[i - 1]).Some?
    ensures DigitsIn(s[a..i]) == DigitsIn(s[a..i - 1]) + [IndexOf(s[i - 1]).value]
  {
    assert s[a..i][..i - 1 - a] == s[a..i - 1] && s[a..i][i - 1 - a] == s[i - 1];
  }

  lemma MoreOfWord(s: string, a: nat, i: nat)
    requires a <= i < |s| && OverAlphabet(s[a..i]) && IndexOf(s[i]).Some?
    ensures OverAlphabet(s[a..i + 1])
  {
    hide IndexOf;
    assert s[a..i + 1] == s[a..i] + [s[i]];
  }

  /** A character outside the alphabet inside the word. */
  lemma BadWord(s: string, a: nat, b: nat, i: nat)
    requires a == SkipSpaces(s, 0) && a <= b <= i < |s| && (forall j :: a <= j < b ==> s[j] == '1')
    requires (forall j :: b <= j < i ==> !IsSpace(s[j])) && !IsSpace(s[i]) && IndexOf(s[i]) == None
    ensures Decoded(s) == None
  {
    hide *;
    WordReaches(s, a, b, i);
    WordAt(s, a, i);
    NotOver(Word(s), i - a);
    NoWord(s);
  }

  lemma WordReaches(s: string, a: nat, b: nat, i: nat)
    requires a <= b <= i < |s| && (forall j :: a <= j < b ==> s[j] == '1')
    requires (forall j :: b <= j < i ==> !IsSpace(s[j])) && !IsSpace(s[i])
    ensures i < WordEnd(s, a)
  {
  }

  lemma WordAt(s: string, a: nat, i: nat)
    requires a == SkipSpaces(s, 0) && a <= i < WordEnd(s, a)
    ensures i - a < |Word(s)| && Word(s)[i - a] == s[i]
  {
    hide SkipSpaces, WordEnd, IsSpace;
  }

  lemma NoWord(s: string)
    requires !OverAlphabet(Word(s))
    ensures Decoded(s) == None
  {
    hide OverAlphabet, Word, DigitsIn, Rebased;
  }

  lemma NotOver(w: string, i: nat)
    requires i < |w| && IndexOf(w[i]) == None
    ensures !OverAlphabet(w)
  {
    hide IndexOf;
  }

  /** Leading ones are leading zeros. */
  lemma OnesAreZeros(s: string, a: nat, b: nat, c: nat)
    requires a <= b <= c <= |s| && OverAlphabet(s[b..c])
    requires (forall j :: a <= j < b ==> s[j] == '1') && (b < c ==> s[b] != '1')
    ensures OverAlphabet(s[a..c]) && LeadingZeros(DigitsIn(s[a..c]), 0) == b - a
    ensures DigitsIn(s[b..c]) == DigitsIn(s[a..c])[b - a..]
  {
    hide ALPHABET;
    AlphabetCode(0);
    IndexFromFinds(0, 0);
    var w := s[a..c];
    forall i | 0 <= i < |w| ensures IndexOf(w[i]).Some? { if i >= b - a { assert w[i] == s[b..c][i - (b - a)]; } }
    var d := DigitsIn(w);
    forall i | b - a <= i < |d| ensures d[i] == DigitsIn(s[b..c])[i - (b - a)] { assert w[i] == s[b..c][i - (b - a)]; }
    ZerosAre(d, b - a);
  }

  /** One more character of the word. */
  lemma NextDigit(s: string, b: nat, i: nat, size: nat)
    requires b <= i < |s| && OverAlphabet(s[b..i]) && IndexOf(s[i]).Some?
    requires Pow(58, |s| - b) <= Pow(256, size)
    ensures OverAlphabet(s[b..i + 1])
    ensures Val(DigitsIn(s[b..i]), 58) * 58 + IndexOf(s[i]).value == Val(DigitsIn(s[b..i + 1]), 58) < Pow(256, size)
  {
    hide Pow, Val, OverAlphabet, IndexOf;
    MoreOfWord(s, b, i);
    DigitsOfWord(s, b, i + 1);
    var d := DigitsIn(s[b..i + 1]);
    assert d[..|d| - 1] == DigitsIn(s[b..i]);
    Room(d, 58, 256, |s| - b, size);
  }

  /** The main loop of DecodeBase58: the word from position b on, up to its end or to the first bad character. */
  method ReadDigits(psz: string, b: nat) returns (i: nat, ok: bool, b256: array<nat>)
    requires b <= |psz|
    ensures b <= i <= |psz| && (forall j :: b <= j < i ==> !IsSpace(psz[j])) && OverAlphabet(psz[b..i])
    ensures if ok then i < |psz| ==> IsSpace(psz[i]) else i < |psz| && !IsSpace(psz[i]) && IndexOf(psz[i]) == None
    ensures fresh(b256) && DigitsOk(b256[..], 256) && Val(b256[..], 256) == Val(DigitsIn(psz[b..i]), 58)
  {
    hide Val, Pow, ALPHABET, DigitsIn, OverAlphabet, IndexOf, IsSpace, DigitsOk;
    i := b;
    var size := (|psz| - b) * 733 / 1000 + 1;
    DecodeFits(|psz| - b);
    b256 := NewBuffer(size, 256);
    NothingRead(psz, b);
    while i < |psz| && !IsSpace(psz[i])
      invariant b <= i <= |psz| && fresh(b256) && b256.Length == size && DigitsOk(b256[..], 256)
      invariant (forall j :: b <= j < i ==> !IsSpace(psz[j])) && OverAlphabet(psz[b..i])
      invariant Val(b256[..], 256) == Val(DigitsIn(psz[b..i]), 58)
    {
      var ch := IndexOf(psz[i]);
      if ch == None {
        ok := false;
        return;
      }
      NextDigit(psz, b, i, size);
      MultiplyAdd(b256, 256, 58, ch.value);
      i := i + 1;
    }
    ok := true;
  }

  /** The loops over white space at both ends. */
  method SkipSpace(psz: string, start: nat) returns (i: nat)
    requires start <= |psz|
    ensures i == SkipSpaces(psz, start)
  {
    i := start;
    while i < |psz| && IsSpace(psz[i])
      invariant start <= i <= |psz| && forall j :: start <= j < i ==> IsSpace(psz[j])
    {
      i := i + 1;
    }
  }

  method SkipOnes(psz: string, start: nat) returns (i: nat, zeroes: nat)
    requires start <= |psz|
    ensures start <= i <= |psz| && zeroes == i - start && (i < |psz| ==> psz[i] != '1')
    ensures forall j :: start <= j < i ==> psz[j] == '1'
  {
    i, zeroes := start, 0;
    while i < |psz| && psz[i] == '1'
      invariant start <= i <= |psz| && zeroes == i - start && forall j :: start <= j < i ==> psz[j] == '1'
    {
      zeroes := zeroes + 1;
      i := i + 1;
    }
  }

  lemma WordIs(s: string, a: nat, b: nat, c: nat)
    requires a <= b <= c <= |s| && (forall j :: a <= j < b ==> s[j] == '1') &&
      (forall j :: b <= j < c ==> !IsSpace(s[j]))
    requires c < |s| ==> IsSpace(s[c])
    ensures c == WordEnd(s, a)
  {
  }

  /** DecodeBase58. */
  method DecodeBase58(psz: string) returns (r: Option<seq<Byte>>)
    ensures r == Decoded(psz)
  {
    hide *;
    var a := SkipSpace(psz, 0);
    var b, zeroes := SkipOnes(psz, a);
    var c, ok, b256 := ReadDigits(psz, b);
    if !ok {
      BadWord(psz, a, b, c);
      return None;
    }
    WordIs(psz, a, b, c);
    OnesAreZeros(psz, a, b, c);
    DecodedIs(psz, a, c);
    var end := SkipSpace(psz, c);
    if end < |psz| {
      return None;
    }
    var it := SkipZeros(b256);
    Assembled(DigitsIn(psz[a..c]), zeroes, DigitsIn(psz[b..c]), b256[..], it, 58, 256);
    var vch := CopyOut(zeroes, b256[it..]);
    return Some(vch);
  }

  lemma NothingRead(s: string, b: nat)
    requires b <= |s|
    ensures OverAlphabet(s[b..b]) && DigitsIn(s[b..b]) == [] && Val([], 58) == 0
  {
  }

  lemma DecodedIs(s: string, a: nat, c: nat)
    requires a == SkipSpaces(s, 0) && c == WordEnd(s, a) && OverAlphabet(s[a..c])
    ensures Decoded(s) == if SkipSpaces(s, c) == |s| then Some(Rebased(DigitsIn(s[a..c]), 58, 256)) else None
  {
    hide Rebased, DigitsIn, OverAlphabet;
  }

  /** The last loop of DecodeBase58. */
  method CopyOut(zeroes: nat, d: seq<nat>) returns (vch: seq<Byte>)
    requires DigitsOk(d, 256)
    ensures vch == Zeros(zeroes) + d
  {
    vch := seq(zeroes, _ => 0);
    for i := 0 to |d|
      invariant vch == Zeros(zeroes) + d[..i]
    {
      vch := vch + [d[i]];
      assert d[..i] + [d[i]] == d[..i + 1];
    }
  }

  // ----- With checksum -----

  /** A hash of at least four bytes; its first four are the checksum. */
  ghost predicate IsHash(hash: seq<Byte> -> seq<Byte>) {
    forall v :: |hash(v)| >= 4
  }

  /** EncodeBase58Check. */
  method EncodeBase58Check(v: seq<Byte>, hash: seq<Byte> -> seq<Byte>) returns (str: string)
    requires IsHash(hash)
    ensures str == Encoded(v + hash(v)[..4])
  {
    var vch := v + hash(v)[..4];
    str := EncodeBase58(vch);
  }

  /** DecodeBase58Check; None stands for false with a cleared result. */
  method DecodeBase58Check(psz: string, hash: seq<Byte> -> seq<Byte>) returns (r: Option<seq<Byte>>)
    requires IsHash(hash)
    ensures r == Checked(psz, hash)
  {
    var d := DecodeBase58(psz);
    if d == None || |d.value| < 4 {
      return None;
    }
    var n := |d.value| - 4;
    if hash(d.value[..n])[..4] != d.value[n..] {
      return None;
    }
    return Some(d.value[..n]);
  }

  ghost function Checked(psz: string, hash: seq<Byte> -> seq<Byte>): Option<seq<Byte>>
    requires IsHash(hash)
  {
    var d := Decoded(psz);
    if d.None? || |d.value| < 4 then None
    else
      var n := |d.value| - 4;
      if hash(d.value[..n])[..4] == d.value[n..] then Some(d.value[..n]) else None
  }

  /** A string over the alphabet passes the check with the answer v exactly if it is the encoding of v. */
  lemma CheckedIffEncoded(w: string, v: seq<Byte>, hash: seq<Byte> -> seq<Byte>)
    requires IsHash(hash) && OverAlphabet(w)
    ensures Checked(w, hash) == Some(v) <==> w == Encoded(v + hash(v)[..4])
  {
    hide Encoded, Decoded, OverAlphabet;
    var vch := v + hash(v)[..4];
    if w == Encoded(vch) {
      DecodeEncode(vch);
      assert vch[..|vch| - 4] == v && vch[|vch| - 4..] == hash(v)[..4];
    }
    if Checked(w, hash) == Some(v) {
      EncodeDecode(w);
      var d := Decoded(w).value;
      assert d == v + hash(v)[..4];
    }
  }
}
