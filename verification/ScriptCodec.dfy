/** Serialization of scripts and outputs (src/compressor.h, src/compressor.cpp). */
module ScriptCodec {
  import opened Wrappers
  import opened Coins
  import opened VarInts

  const OP_DUP: nat := 0x76
  const OP_HASH160: nat := 0xa9
  const OP_EQUAL: nat := 0x87
  const OP_EQUALVERIFY: nat := 0x88
  const OP_CHECKSIG: nat := 0xac
  const SPECIAL_SCRIPTS: nat := 6

  /** CPubKey::IsFullyValid and CPubKey::Decompress. */
  datatype Keys = Keys(valid: seq<nat> -> bool, decompress: seq<nat> -> Option<seq<nat>>)

  /** Decompressing the x coordinate and the parity of a valid key gives the key back. */
  ghost predicate KeysOk(k: Keys) {
    forall p {:trigger k.valid(p)} :: |p| == 65 && p[0] == 4 && k.valid(p) ==>
      k.decompress([2 + p[64] % 2] + p[1..33]) == Some(p)
  }

  predicate IsToKeyID(s: Script) {
    |s| == 25 && s[0] == OP_DUP && s[1] == OP_HASH160 && s[2] == 20 && s[23] == OP_EQUALVERIFY && s[24] == OP_CHECKSIG
  }

  predicate IsToScriptID(s: Script) {
    |s| == 23 && s[0] == OP_HASH160 && s[1] == 20 && s[22] == OP_EQUAL
  }

  predicate IsToCompressedKey(s: Script) {
    |s| == 35 && s[0] == 33 && s[34] == OP_CHECKSIG && (s[1] == 2 || s[1] == 3)
  }

  predicate IsToFullKey(s: Script, k: Keys) {
    |s| == 67 && s[0] == 65 && s[66] == OP_CHECKSIG && s[1] == 4 && k.valid(s[1..66])
  }

  /** Compress: the kind of special script and its payload. */
  function CompressedScript(s: Script, k: Keys): (r: Option<(nat, Stream)>)
    ensures r.Some? ==> r.value.0 < SPECIAL_SCRIPTS && |r.value.1| == SpecialSize(r.value.0)
  {
    if IsToKeyID(s) then Some((0, s[3..23]))
    else if IsToScriptID(s) then Some((1, s[2..22]))
    else if IsToCompressedKey(s) then Some((s[1], s[2..34]))
    else if IsToFullKey(s, k) then Some((4 + s[65] % 2, s[2..34]))
    else None
  }

  function SpecialSize(n: nat): nat {
    if n <= 1 then 20 else if n <= 5 then 32 else 0
  }

  /** Decompress; a key that cannot be decompressed leaves the empty script there was. */
  function DecompressedScript(n: nat, payload: Stream, k: Keys): Script
    requires n < SPECIAL_SCRIPTS && |payload| == SpecialSize(n)
  {
    if n == 0 then [OP_DUP, OP_HASH160, 20] + payload + [OP_EQUALVERIFY, OP_CHECKSIG]
    else if n == 1 then [OP_HASH160, 20] + payload + [OP_EQUAL]
    else if n <= 3 then [33, n] + payload + [OP_CHECKSIG]
    else
      match k.decompress([n - 2] + payload)
      case Some(p) => if |p| == 65 then [65] + p + [OP_CHECKSIG] else []
      case None => []
  }

  function ScriptBytes(s: Script, k: Keys): Stream {
    match CompressedScript(s, k)
    case Some((n, payload)) => [n] + payload
    case None => VarInt(|s| + SPECIAL_SCRIPTS) + s
  }

  /** CScriptCompressor::Unserialize. */
  function ReadScript(s: Stream, k: Keys): Option<(Script, Stream)> {
    match ReadVarInt(s)
    case None => None
    case Some((n, t)) =>
      var size := if n < SPECIAL_SCRIPTS then SpecialSize(n) else n - SPECIAL_SCRIPTS;
      if |t| < size then None
      else Some((if n < SPECIAL_SCRIPTS then DecompressedScript(n, t[..size], k) else t[..size], t[size..]))
  }

  function OutBytes(o: TxOut, k: Keys): Stream
    requires o.value >= 0
  {
    VarInt(Compressed(o.value)) + ScriptBytes(o.script, k)
  }

  /** CTxOutCompressor, reading. */
  function ReadOut(s: Stream, k: Keys): Option<(TxOut, Stream)> {
    match ReadVarInt(s)
    case None => None
    case Some((x, t)) =>
      match ReadScript(t, k)
      case None => None
      case Some((script, u)) => Some((TxOut(Decompressed(x), script), u))
  }

  /** The special forms lose nothing. */
  lemma ScriptDecompresses(s: Script, k: Keys)
    requires KeysOk(k) && CompressedScript(s, k).Some?
    ensures var (n, payload) := CompressedScript(s, k).value; DecompressedScript(n, payload, k) == s
  {
    var (n, payload) := CompressedScript(s, k).value;
    var r := DecompressedScript(n, payload, k);
    if IsToKeyID(s) {
      assert s == s[..3] + s[3..23] + s[23..];
    } else if IsToScriptID(s) {
      assert s == s[..2] + s[2..22] + s[22..];
    } else if IsToCompressedKey(s) {
      assert s == s[..2] + s[2..34] + s[34..];
    } else {
      var p := s[1..66];
      assert p[64] == s[65] && p[1..33] == s[2..34];
      assert k.valid(p);
      assert [n - 2] + payload == [2 + p[64] % 2] + p[1..33];
      assert s == [s[0]] + p + [s[66]];
    }
  }

  /**
   The bytes of the five forms: a payment to a key hash, to a script hash, to a compressed and to a valid
   full key; every other script stands as it is behind its length plus six.
   */
  lemma ScriptForms(s: Script, k: Keys)
    ensures
      var n := |s|;
      if n == 25 && s[0] == 118 && s[1] == 169 && s[2] == 20 && s[23] == 136 && s[24] == 172
      then ScriptBytes(s, k) == [0] + s[3..23]
      else if n == 23 && s[0] == 169 && s[1] == 20 && s[22] == 135 then ScriptBytes(s, k) == [1] + s[2..22]
      else if n == 35 && s[0] == 33 && s[1] in {2, 3} && s[34] == 172 then ScriptBytes(s, k) == s[1..34]
      else if n == 67 && s[0] == 65 && s[1] == 4 && k.valid(s[1..66]) && s[66] == 172
      then ScriptBytes(s, k) == [4 + s[65] % 2] + s[2..34]
      else ScriptBytes(s, k) == VarInt(n + 6) + s
  {
    if |s| == 35 { assert [s[1]] + s[2..34] == s[1..34]; }
  }

  lemma SmallVarInt(n: nat)
    requires n < 128
    ensures VarInt(n) == [n]
  {
  }

  lemma ScriptBack(s: Script, k: Keys, t: Stream)
    requires KeysOk(k)
    ensures ReadScript(ScriptBytes(s, k) + t, k) == Some((s, t))
  {
    hide KeysOk, CompressedScript, DecompressedScript, VarInt, ReadVarInt;
    match CompressedScript(s, k)
    case Some((n, payload)) =>
      SmallVarInt(n);
      ScriptDecompresses(s, k);
      ReadBack(n, payload + t);
      assert ScriptBytes(s, k) + t == VarInt(n) + (payload + t);
      assert (payload + t)[..|payload|] == payload && (payload + t)[|payload|..] == t;
    case None =>
      ReadBack(|s| + SPECIAL_SCRIPTS, s + t);
      assert ScriptBytes(s, k) + t == VarInt(|s| + SPECIAL_SCRIPTS) + (s + t);
      assert (s + t)[..|s|] == s && (s + t)[|s|..] == t;
  }

  /** A full key that cannot be decompressed leaves no script, and reading goes on behind it. */
  lemma BadKeyLeavesNothing(n: nat, payload: Stream, k: Keys, t: Stream)
    requires 4 <= n <= 5 && |payload| == 32 && k.decompress([n - 2] + payload) == None
    ensures ReadScript([n] + payload + t, k) == Some(([], t))
  {
    hide VarInt, ReadVarInt;
    SmallVarInt(n);
    ReadBack(n, payload + t);
    assert [n] + payload + t == VarInt(n) + (payload + t);
    assert (payload + t)[..32] == payload && (payload + t)[32..] == t;
  }

  lemma OutBack(o: TxOut, k: Keys, t: Stream)
    requires KeysOk(k) && o.value >= 0
    ensures ReadOut(OutBytes(o, k) + t, k) == Some((o, t))
  {
    hide KeysOk, ScriptBytes, ReadScript, VarInt, ReadVarInt, Compressed, Decompressed;
    var x := Compressed(o.value);
    assert OutBytes(o, k) + t == VarInt(x) + (ScriptBytes(o.script, k) + t);
    ReadBack(x, ScriptBytes(o.script, k) + t);
    ScriptBack(o.script, k, t);
    DecompressCompress(o.value);
  }
}
