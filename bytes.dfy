/** Bytes and the fixed-width integer layouts the serializer writes:
    little-endian (byteorder's LittleEndian) and big-endian (BigEndian),
    each with its decoding and the round-trip laws between the two. */
module Bytes {

  /** An octet, Rust's u8. */
  type byte = b: int | 0 <= b < 256

  /** 256^w: one more than the largest unsigned value that fits in w bytes. */
  function Pow256(w: nat): (r: nat)
    ensures r > 0
  {
    if w == 0 then 1 else 256 * Pow256(w - 1)
  }

  const TWO_32: nat := 0x1_0000_0000
  const TWO_64: nat := 0x1_0000_0000_0000_0000
  const TWO_128: nat := 0x1_0000_0000_0000_0000_0000_0000_0000_0000

  lemma PowersOfTwo()
    ensures Pow256(1) == 0x100 && Pow256(2) == 0x1_0000 && Pow256(3) == 0x100_0000
    ensures Pow256(4) == TWO_32 && Pow256(8) == TWO_64 && Pow256(16) == TWO_128
  {
  }

  /** The w least significant bytes of n, least significant first. */
  function LittleEndian(n: nat, w: nat): (r: seq<byte>)
    ensures |r| == w
  {
    if w == 0 then [] else [n % 256] + LittleEndian(n / 256, w - 1)
  }

  /** The unsigned number whose little-endian bytes are s. */
  function FromLittleEndian(s: seq<byte>): (n: nat)
    ensures n < Pow256(|s|)
  {
    if |s| == 0 then 0 else s[0] + 256 * FromLittleEndian(s[1..])
  }

  /** The w least significant bytes of n, most significant first. */
  function BigEndian(n: nat, w: nat): (r: seq<byte>)
    ensures |r| == w
  {
    if w == 0 then [] else BigEndian(n / 256, w - 1) + [n % 256]
  }

  /** The unsigned number whose big-endian bytes are s. */
  function FromBigEndian(s: seq<byte>): (n: nat)
    ensures n < Pow256(|s|)
  {
    if |s| == 0 then 0 else 256 * FromBigEndian(s[..|s| - 1]) + s[|s| - 1]
  }

  /** Removing the low byte of a number below 256 * p leaves a number below p. */
  lemma DropLowByte(n: nat, p: nat)
    requires n < 256 * p
    ensures n / 256 < p && n == 256 * (n / 256) + n % 256
  {
  }

  /** Decoding the little-endian bytes of n gives n back. */
  lemma {:induction false} LittleEndianRoundTrip(n: nat, w: nat)
    requires n < Pow256(w)
    ensures FromLittleEndian(LittleEndian(n, w)) == n
  {
    if w > 0 {
      var s := LittleEndian(n, w);
      assert s[1..] == LittleEndian(n / 256, w - 1);
      DropLowByte(n, Pow256(w - 1));
      LittleEndianRoundTrip(n / 256, w - 1);
    }
  }

  /** Every w-byte sequence is the little-endian encoding of its value. */
  lemma {:induction false} LittleEndianOfDecoded(s: seq<byte>)
    ensures LittleEndian(FromLittleEndian(s), |s|) == s
  {
    if |s| > 0 {
      var n := FromLittleEndian(s);
      assert n / 256 == FromLittleEndian(s[1..]);
      LittleEndianOfDecoded(s[1..]);
    }
  }

  /** Decoding the big-endian bytes of n gives n back. */
  lemma {:induction false} BigEndianRoundTrip(n: nat, w: nat)
    requires n < Pow256(w)
    ensures FromBigEndian(BigEndian(n, w)) == n
  {
    if w > 0 {
      var s, high := BigEndian(n, w), BigEndian(n / 256, w - 1);
      assert s[..w - 1] == high && s[w - 1] == n % 256 by {
        assert s == high + [n % 256];
      }
      DropLowByte(n, Pow256(w - 1));
      BigEndianRoundTrip(n / 256, w - 1);
    }
  }

  /** Every w-byte sequence is the big-endian encoding of its value. */
  lemma {:induction false} BigEndianOfDecoded(s: seq<byte>)
    ensures BigEndian(FromBigEndian(s), |s|) == s
  {
    if |s| > 0 {
      var init := s[..|s| - 1];
      var n := FromBigEndian(s);
      assert n / 256 == FromBigEndian(init);
      BigEndianOfDecoded(init);
      assert s == init + [s[|s| - 1]];
    }
  }

  /** Big-endian decoding of a concatenation: the left part is the high part. */
  lemma {:induction false} FromBigEndianAppend(s: seq<byte>, t: seq<byte>)
    ensures FromBigEndian(s + t) == FromBigEndian(s) * Pow256(|t|) + FromBigEndian(t)
  {
    if |t| > 0 {
      var t', last := t[..|t| - 1], t[|t| - 1];
      assert (s + t)[..|s + t| - 1] == s + t';
      assert (s + t)[|s + t| - 1] == last;
      FromBigEndianAppend(s, t');
      var a, p := FromBigEndian(s), Pow256(|t'|);
      var x, y := FromBigEndian(s + t'), FromBigEndian(t');
      assert FromBigEndian(s + t) == 256 * x + last;
      assert FromBigEndian(t) == 256 * y + last;
      assert Pow256(|t|) == 256 * p;
      ShiftHighPart(a, p, y);
    } else {
      assert s + t == s;
    }
  }

  /** Arithmetic step of FromBigEndianAppend: shifting by one byte distributes. */
  lemma ShiftHighPart(a: nat, p: nat, y: nat)
    ensures 256 * (a * p + y) == a * (256 * p) + 256 * y
  {
  }
}
