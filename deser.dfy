/** A reader for the bare encodings that ser.rs writes, used as the inverse
    against which the writer is checked: every non-vector value is read back
    from its own bytes whatever follows them, and every proper prefix of its
    bytes is rejected as truncated. Vectors have no reader here: their length
    word is a buffer offset, not an element count, so the bytes do not say
    where a vector ends. */
module Deser {
  import opened Bytes
  import opened Ser
  import opened Layout

  datatype Error = Truncated | InvalidBool | UnknownPrefix

  datatype Result<T> = Ok(value: T) | Err(error: Error)

  /** The type the reader is told to expect (bare values carry no identifier). */
  datatype Kind = KBool | KInt(t: IntType) | KPair | KStr

  function KindOf(v: Value): (k: Kind)
    requires !v.Vector?
  {
    match v
    case Bool(_) => KBool
    case Int(t, _) => KInt(t)
    case Pair(_, _) => KPair
    case Str(_) => KStr
  }

  /** The integer of type t held in bytes: little-endian, or big-endian for
      the 128-bit types, and two's complement for the signed ones. */
  function ReadInt(t: IntType, bytes: seq<byte>): (x: int)
    requires |bytes| == Width(t)
    ensures InRange(t, x)
  {
    ModulusIsPower(t);
    var u := if t.I128? || t.U128? then FromBigEndian(bytes) else FromLittleEndian(bytes);
    if Signed(t) && u >= Modulus(t) / 2 then u - Modulus(t) else u
  }

  /** The string whose payload of len bytes starts at offset h of s. */
  function ReadPayload(s: seq<byte>, h: nat, len: nat): (r: Result<(Value, nat)>)
    requires h <= |s|
  {
    var total := h + len + Padding(len);
    if total <= |s| then Ok((Str(s[h..h + len]), total)) else Err(Truncated)
  }

  /** A value of kind k at the start of s, and how many bytes it took. */
  function Decode(k: Kind, s: seq<byte>): (r: Result<(Value, nat)>)
  {
    match k
    case KBool =>
      if |s| < 4 then Err(Truncated)
      else if s[..4] == BoolBytes(true) then Ok((Bool(true), 4))
      else if s[..4] == BoolBytes(false) then Ok((Bool(false), 4))
      else Err(InvalidBool)
    case KInt(t) =>
      if |s| < Width(t) then Err(Truncated)
      else Ok((Int(t, ReadInt(t, s[..Width(t)])), Width(t)))
    case KPair =>
      if |s| < 32 then Err(Truncated)
      else Ok((Pair(ReadInt(I128, s[16..32]), ReadInt(I128, s[..16])), 32))
    case KStr =>
      if |s| == 0 then Err(Truncated)
      else if s[0] <= 253 then ReadPayload(s, 1, s[0])
      else if s[0] == 254 then
        if |s| < 4 then Err(Truncated) else ReadPayload(s, 4, FromLittleEndian(s[1..4]))
      else Err(UnknownPrefix)
  }

  /** Reading back the bytes of an integer gives the integer. */
  lemma ReadIntRoundTrip(t: IntType, x: int)
    requires InRange(t, x)
    ensures ReadInt(t, IntBytes(t, x)) == x
  {
    ModulusIsPower(t);
    if t.I128? || t.U128? {
      U128IsBigEndian(AsUnsigned(x, TWO_128));
    } else {
      LittleEndianInts(t, x);
    }
  }

  /** Every non-vector value is read back from its encoding, whatever bytes
      follow it, and the reader consumes exactly the encoding. */
  lemma DecodeEncoding(v: Value, at: nat, rest: seq<byte>)
    requires Serializable(v) && !v.Vector?
    ensures Decode(KindOf(v), Encoding(v, at) + rest) == Ok((v, |Encoding(v, at)|))
  {
    match v
    case Bool(b) => DecodeBool(b, rest);
    case Int(t, x) => DecodeInt(t, x, rest);
    case Pair(first, second) => DecodePair(first, second, rest);
    case Str(p) => DecodeString(p, rest);
  }

  /** bool read back. */
  lemma DecodeBool(b: bool, rest: seq<byte>)
    ensures Decode(KBool, BoolBytes(b) + rest) == Ok((Bool(b), 4))
  {
    BoolWords();
    assert (BoolBytes(b) + rest)[..4] == BoolBytes(b);
  }

  /** Integers of every type read back. */
  lemma DecodeInt(t: IntType, x: int, rest: seq<byte>)
    requires InRange(t, x)
    ensures Decode(KInt(t), IntBytes(t, x) + rest) == Ok((Int(t, x), Width(t)))
  {
    ReadIntRoundTrip(t, x);
    assert (IntBytes(t, x) + rest)[..Width(t)] == IntBytes(t, x);
  }

  /** The (i128, i128) pair read back, components in their original order. */
  lemma DecodePair(first: int, second: int, rest: seq<byte>)
    requires InRange(I128, first) && InRange(I128, second)
    ensures Decode(KPair, PairBytes(first, second) + rest) == Ok((Pair(first, second), 32))
  {
    var s := PairBytes(first, second) + rest;
    assert s[..16] == IntBytes(I128, second);
    assert s[16..32] == IntBytes(I128, first);
    ReadIntRoundTrip(I128, first);
    ReadIntRoundTrip(I128, second);
  }

  /** Strings read back, short and long prefix alike, padding consumed. */
  lemma DecodeString(p: seq<byte>, rest: seq<byte>)
    requires |p| < Pow256(3)
    ensures Decode(KStr, StringBytes(p) + rest) == Ok((Str(p), |StringBytes(p)|))
  {
    var e := StringBytes(p);
    var s := e + rest;
    StringLayout(p);
    var h := if |p| <= 253 then 1 else 4;
    assert s[0] == e[0];
    assert s[h..h + |p|] == e[h..h + |p|];
    if |p| > 253 {
      assert s[1..4] == e[1..4];
    }
  }

  /** A bool is accepted exactly when the input starts with its word: any
      other four bytes are rejected, never read as true or false. */
  lemma DecodeBoolExactly(b: bool, s: seq<byte>)
    ensures Decode(KBool, s) == Ok((Bool(b), 4)) <==> |s| >= 4 && s[..4] == BoolBytes(b)
  {
    BoolWords();
  }

  /** Every proper prefix of the encoding of a non-vector value is rejected
      as truncated: the reader never accepts part of a value. */
  lemma DecodeRejectsTruncated(v: Value, at: nat, n: nat)
    requires Serializable(v) && !v.Vector?
    requires n < |Encoding(v, at)|
    ensures Decode(KindOf(v), Encoding(v, at)[..n]) == Err(Truncated)
  {
    var e := Encoding(v, at);
    var s := e[..n];
    if v.Str? {
      var p := v.s;
      StringLayout(p);
      if n > 0 {
        assert s[0] == e[0];
        if |p| > 253 && n >= 4 {
          assert s[1..4] == e[1..4];
        }
      }
    }
  }
}
