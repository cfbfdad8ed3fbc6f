/** What the bytes appended by each Serialize impl of ser.rs look like:
    widths, byte order, magic words, the string prefix and padding rules, and
    how a vector's elements are laid out after its header. */
module Layout {
  import opened Bytes
  import opened Ser

  /** bool: `true` and `false` are the i32 words -1720552011 and -1132882121
      in little-endian order, four bytes each, and they differ. */
  lemma BoolWords()
    ensures BoolBytes(true) == [0xB5, 0x75, 0x72, 0x99]
    ensures BoolBytes(false) == [0x37, 0x97, 0x79, 0xBC]
    ensures BoolBytes(true) != BoolBytes(false)
  {
    PowersOfTwo();
    assert AsUnsigned(BOOL_TRUE, TWO_32) == 0x997275B5;
    assert AsUnsigned(BOOL_FALSE, TWO_32) == 0xBC799737;
  }

  /** i8, u8, i16, u16, i32, u32, i64 and u64 append Width(t) bytes that,
      read little-endian, are the value's bits as an unsigned number
      (the two's-complement form of a negative value). */
  lemma {:induction false} LittleEndianInts(t: IntType, x: int)
    requires !(t.I128? || t.U128?) && InRange(t, x)
    ensures |IntBytes(t, x)| == Width(t)
    ensures FromLittleEndian(IntBytes(t, x)) == x % Modulus(t)
    ensures Signed(t) ==> (x < 0 <==> FromLittleEndian(IntBytes(t, x)) >= Modulus(t) / 2)
  {
    var u := AsUnsigned(x, Modulus(t));
    if t.I8? || t.U8? {
      assert IntBytes(t, x) == [u];
      assert [u][1..] == [];
    } else {
      ModulusIsPower(t);
      LittleEndianRoundTrip(u, Width(t));
    }
  }

  /** u128: the high 64 bits big-endian followed by the low 64 bits
      big-endian is exactly the 16-byte big-endian form of the value,
      and reading it big-endian gives the value back. */
  lemma U128IsBigEndian(x: nat)
    requires x < TWO_128
    ensures U128Bytes(x) == BigEndian(x, 16)
    ensures FromBigEndian(U128Bytes(x)) == x
  {
    var s := U128Bytes(x);
    JoinHalves(x / TWO_64, x % TWO_64);
    assert FromBigEndian(s) == x;
    BigEndianOfDecoded(s);
  }

  /** Helper: two 8-byte big-endian halves read as one big-endian number. */
  lemma JoinHalves(hi: nat, lo: nat)
    requires hi < TWO_64 && lo < TWO_64
    ensures FromBigEndian(BigEndian(hi, 8) + BigEndian(lo, 8)) == hi * TWO_64 + lo
  {
    assert Pow256(8) == TWO_64 by { PowersOfTwo(); }
    FromBigEndianAppend(BigEndian(hi, 8), BigEndian(lo, 8));
    BigEndianRoundTrip(hi, 8);
    BigEndianRoundTrip(lo, 8);
  }

  /** i128 is written as its as_u128() reinterpretation: the 16-byte
      big-endian form of the value modulo 2^128. */
  lemma I128IsBigEndian(x: int)
    requires InRange(I128, x)
    ensures IntBytes(I128, x) == U128Bytes(x % TWO_128)
    ensures IntBytes(I128, x) == BigEndian(x % TWO_128, 16)
  {
    U128IsBigEndian(x % TWO_128);
  }

  /** The nonce of the (p,q) authorization request, 0x3E0549828CCA27E966B301A48FECE2FC,
      serializes to its sixteen bytes in big-endian order. */
  lemma NonceVector()
    ensures InRange(I128, 0x3E0549828CCA27E966B301A48FECE2FC)
    ensures IntBytes(I128, 0x3E0549828CCA27E966B301A48FECE2FC)
         == [0x3E, 0x05, 0x49, 0x82, 0x8C, 0xCA, 0x27, 0xE9,
             0x66, 0xB3, 0x01, 0xA4, 0x8F, 0xEC, 0xE2, 0xFC]
  {
    var n := 0x3E0549828CCA27E966B301A48FECE2FC;
    assert AsUnsigned(n, TWO_128) == n;
    assert n / TWO_64 == 0x3E0549828CCA27E9 && n % TWO_64 == 0x66B301A48FECE2FC;
    NonceHalves();
  }

  /** Helper: the big-endian bytes of the two 64-bit halves of the nonce. */
  lemma NonceHalves()
    ensures BigEndian(0x3E0549828CCA27E9, 8) == [0x3E, 0x05, 0x49, 0x82, 0x8C, 0xCA, 0x27, 0xE9]
    ensures BigEndian(0x66B301A48FECE2FC, 8) == [0x66, 0xB3, 0x01, 0xA4, 0x8F, 0xEC, 0xE2, 0xFC]
  {
    assert BigEndian(0x3E, 1) == [0x3E];
    assert BigEndian(0x3E05, 2) == [0x3E, 0x05];
    assert BigEndian(0x3E0549, 3) == [0x3E, 0x05, 0x49];
    assert BigEndian(0x3E054982, 4) == [0x3E, 0x05, 0x49, 0x82];
    assert BigEndian(0x3E0549828C, 5) == [0x3E, 0x05, 0x49, 0x82, 0x8C];
    assert BigEndian(0x3E0549828CCA, 6) == [0x3E, 0x05, 0x49, 0x82, 0x8C, 0xCA];
    assert BigEndian(0x3E0549828CCA27, 7) == [0x3E, 0x05, 0x49, 0x82, 0x8C, 0xCA, 0x27];
    assert BigEndian(0x3E0549828CCA27E9, 8) == [0x3E, 0x05, 0x49, 0x82, 0x8C, 0xCA, 0x27, 0xE9];
    assert BigEndian(0x66, 1) == [0x66];
    assert BigEndian(0x66B3, 2) == [0x66, 0xB3];
    assert BigEndian(0x66B301, 3) == [0x66, 0xB3, 0x01];
    assert BigEndian(0x66B301A4, 4) == [0x66, 0xB3, 0x01, 0xA4];
    assert BigEndian(0x66B301A48F, 5) == [0x66, 0xB3, 0x01, 0xA4, 0x8F];
    assert BigEndian(0x66B301A48FEC, 6) == [0x66, 0xB3, 0x01, 0xA4, 0x8F, 0xEC];
    assert BigEndian(0x66B301A48FECE2, 7) == [0x66, 0xB3, 0x01, 0xA4, 0x8F, 0xEC, 0xE2];
    assert BigEndian(0x66B301A48FECE2FC, 8) == [0x66, 0xB3, 0x01, 0xA4, 0x8F, 0xEC, 0xE2, 0xFC];
  }

  /** (i128, i128) appends 32 bytes: the second component's 16 big-endian
      bytes, then the first's. */
  lemma PairLayout(first: int, second: int)
    requires InRange(I128, first) && InRange(I128, second)
    ensures PairBytes(first, second)[..16] == BigEndian(second % TWO_128, 16)
    ensures PairBytes(first, second)[16..] == BigEndian(first % TWO_128, 16)
  {
    I128IsBigEndian(first);
    I128IsBigEndian(second);
  }

  /** String: the length prefix (one byte L when L <= 253, else 254 and L in
      three little-endian bytes), the payload verbatim, then (4 - L % 4) % 4
      zero bytes. */
  lemma StringLayout(s: seq<byte>)
    requires |s| < Pow256(3)
    ensures var r, n := StringBytes(s), |s|;
      var h := if n <= 253 then 1 else 4;
      && |r| == h + n + (4 - n % 4) % 4
      && (n <= 253 ==> r[0] == n)
      && (n > 253 ==> r[0] == 254 && FromLittleEndian(r[1..4]) == n)
      && r[h..h + n] == s
      && forall i :: h + n <= i < |r| ==> r[i] == 0
  {
    var r, n := StringBytes(s), |s|;
    var h := if n <= 253 then 1 else 4;
    assert r == StringPrefix(n) + s + Zeros(Padding(n));
    if n > 253 {
      LittleEndianRoundTrip(n, 3);
      assert r[1..4] == LittleEndian(n, 3);
    }
    assert r[h..h + n] == s;
    forall i | h + n <= i < |r|
      ensures r[i] == 0
    {
      assert r[i] == Zeros(Padding(n))[i - h - n];
    }
  }

  /** The padding counts the payload only. With the 4-byte long prefix the
      whole encoding is a multiple of four bytes; with the 1-byte short
      prefix it is one more than a multiple of four, so short strings leave
      the buffer unaligned (the empty string is the single byte 0). */
  lemma StringAlignment(s: seq<byte>)
    requires |s| < Pow256(3)
    ensures |s| > 253 ==> |StringBytes(s)| % 4 == 0
    ensures |s| <= 253 ==> |StringBytes(s)| % 4 == 1
    ensures StringBytes([]) == [0]
  {
    var n, p := |s|, Padding(|s|);
    assert |StringBytes(s)| == |StringPrefix(n)| + n + p;
    assert (n + p) % 4 == 0;
    assert StringBytes([]) == [0] + [] + [];
  }

  /** The vector header: the tag 0x1cb5c415 in little-endian order, then a
      word that reads back as the buffer length after the tag, truncated to
      32 bits. It never depends on the elements: every vector written at the
      same offset starts with the same eight bytes, followed by its elements. */
  lemma {:induction false} VectorHeaderLayout(es: seq<Value>, at: nat)
    ensures var r := Encoding(Vector(es), at);
      && r[..4] == [0x15, 0xC4, 0xB5, 0x1C]
      && FromLittleEndian(r[4..8]) == (at + 4) % TWO_32
      && r == Encoding(Vector([]), at) + Elements(es, at + 8)
  {
    var r := Encoding(Vector(es), at);
    PowersOfTwo();
    assert r[..4] == LittleEndian(VECTOR_TAG, 4);
    assert r[4..8] == LittleEndian((at + 4) % TWO_32, 4);
    LittleEndianRoundTrip((at + 4) % TWO_32, 4);
    assert Encoding(Vector([]), at) == VectorHeader(at) + [];
  }

  /** The length word is not the element count: a one-element vector at the
      start of an empty buffer carries the word 4. */
  lemma VectorLengthIsNotCount()
    ensures Serializable(Vector([Bool(true)]))
    ensures FromLittleEndian(Encoding(Vector([Bool(true)]), 0)[4..8]) == 4
  {
    VectorHeaderLayout([Bool(true)], 0);
  }

  /** The elements written before element j are a prefix of all the elements. */
  lemma {:induction false} ElementsPrefix(es: seq<Value>, j: nat, at: nat)
    requires j <= |es|
    ensures Elements(es[..j], at) <= Elements(es, at)
    decreases |es| - j
  {
    if j < |es| {
      ElementsPrefix(es, j + 1, at);
      var front := es[..j + 1];
      assert front[..|front| - 1] == es[..j];
    } else {
      assert es[..j] == es;
    }
  }

  /** Element i of a vector is serialized right after elements 0..i-1, at the
      offset where they end. */
  lemma ElementAt(es: seq<Value>, i: nat, at: nat)
    requires i < |es|
    ensures var off := |Elements(es[..i], at)|;
      var e := Encoding(es[i], at + off);
      off + |e| <= |Elements(es, at)| && Elements(es, at)[off..off + |e|] == e
  {
    var front := es[..i + 1];
    assert front[..|front| - 1] == es[..i] && front[|front| - 1] == es[i];
    var before := Elements(es[..i], at);
    var e := Encoding(es[i], at + |before|);
    var upto := Elements(front, at);
    assert upto == before + e;
    ElementsPrefix(es, i + 1, at);
    var all := Elements(es, at);
    assert all[..|upto|] == upto;
    assert all[|before|..|upto|] == upto[|before|..] == e;
  }

  /** How many bytes a value takes does not depend on where it is written. */
  lemma {:induction false} EncodingSizeIndependentOfOffset(v: Value, p: nat, q: nat)
    ensures |Encoding(v, p)| == |Encoding(v, q)|
    decreases v
  {
    if v.Vector? {
      ElementsSizeIndependentOfOffset(v.elems, p + 8, q + 8);
    }
  }

  /** What the offset changes: a non-vector value is written the same at
      every offset, and a vector always starts with the same tag and takes
      the same number of bytes; only the length words of vectors move with
      the offset. */
  lemma EncodingAtAnyOffset(v: Value, p: nat, q: nat)
    ensures |Encoding(v, p)| == |Encoding(v, q)|
    ensures !v.Vector? ==> Encoding(v, p) == Encoding(v, q)
    ensures v.Vector? ==> Encoding(v, p)[..4] == Encoding(v, q)[..4]
  {
    EncodingSizeIndependentOfOffset(v, p, q);
    if v.Vector? {
      assert Encoding(v, p)[..4] == LittleEndian(VECTOR_TAG, 4);
      assert Encoding(v, q)[..4] == LittleEndian(VECTOR_TAG, 4);
    }
  }

  /** The list form of EncodingSizeIndependentOfOffset. */
  lemma {:induction false} ElementsSizeIndependentOfOffset(es: seq<Value>, p: nat, q: nat)
    ensures |Elements(es, p)| == |Elements(es, q)|
    decreases es
  {
    if |es| > 0 {
      var init, last := es[..|es| - 1], es[|es| - 1];
      var a, b := Elements(init, p), Elements(init, q);
      ElementsSizeIndependentOfOffset(init, p, q);
      EncodingSizeIndependentOfOffset(last, p + |a|, q + |b|);
      assert Elements(es, p) == a + Encoding(last, p + |a|);
      assert Elements(es, q) == b + Encoding(last, q + |b|);
    }
  }
}
