/** The MTProto TL binary serializer of telegram/src/ser.rs: one method per
    `Serialize` impl, each appending to a caller-owned buffer, and the pure
    functions that say which bytes each one appends.

    The bytes a value appends depend on where the buffer ends when it is
    written: a vector's length word is the buffer's length after the vector
    tag, not the number of elements. Encoding therefore takes that offset. */
module Ser {
  import opened Bytes
  import opened ByteBuffer

  /** The integer types that implement Serialize (f32 and f64 are not modelled). */
  datatype IntType = I8 | U8 | I16 | U16 | I32 | U32 | I64 | U64 | I128 | U128

  /** Size of the type in bytes. */
  function Width(t: IntType): (w: nat)
  {
    match t
    case I8 | U8 => 1
    case I16 | U16 => 2
    case I32 | U32 => 4
    case I64 | U64 => 8
    case I128 | U128 => 16
  }

  predicate Signed(t: IntType)
  {
    t.I8? || t.I16? || t.I32? || t.I64? || t.I128?
  }

  /** 2^(8 * Width(t)): the number of values of type t. */
  function Modulus(t: IntType): (m: nat)
  {
    match t
    case I8 | U8 => 0x100
    case I16 | U16 => 0x1_0000
    case I32 | U32 => TWO_32
    case I64 | U64 => TWO_64
    case I128 | U128 => TWO_128
  }

  lemma ModulusIsPower(t: IntType)
    ensures Modulus(t) == Pow256(Width(t))
  {
    PowersOfTwo();
  }

  /** x is a value of type t: two's-complement range when signed, [0, 2^(8w)) otherwise. */
  predicate InRange(t: IntType, x: int)
  {
    if Signed(t) then -(Modulus(t) / 2) <= x < Modulus(t) / 2
    else 0 <= x < Modulus(t)
  }

  /** Rust's `as` cast to an unsigned type with m values (and extprim's as_u128):
      the same bits read as an unsigned number, that is, x reduced modulo m. */
  function AsUnsigned(x: int, m: nat): (u: nat)
    requires m > 0
    ensures u < m
    ensures 0 <= x < m ==> u == x
    ensures -(m as int) <= x < 0 ==> u == x + m
  {
    x % m
  }

  /** The values the serializer can be given. A closed set of variants takes
      the place of the trait objects (`Box<Any>`) of the source. */
  datatype Value =
    | Bool(b: bool)
    | Int(t: IntType, x: int)
    /** The (i128, i128) tuple the schema uses for int256. */
    | Pair(first: int, second: int)
    /** A String, as its UTF-8 bytes. */
    | Str(s: seq<byte>)
    | Vector(elems: seq<Value>)

  /** Every integer is in the range of its type and every string is shorter
      than 2^24 bytes: byteorder's write_uint refuses a longer length in its
      3-byte field, so longer strings cannot be serialized. */
  predicate Serializable(v: Value)
  {
    match v
    case Bool(_) => true
    case Int(t, x) => InRange(t, x)
    case Pair(first, second) => InRange(I128, first) && InRange(I128, second)
    case Str(s) => |s| < Pow256(3)
    case Vector(es) => forall i :: 0 <= i < |es| ==> Serializable(es[i])
  }

  predicate AllSerializable(es: seq<Value>)
  {
    forall i :: 0 <= i < |es| ==> Serializable(es[i])
  }

  /** The i32 written for `true` and for `false`. */
  const BOOL_TRUE: int := -1720552011
  const BOOL_FALSE: int := -1132882121
  /** The vector type identifier. */
  const VECTOR_TAG: nat := 0x1cb5c415

  function BoolBytes(b: bool): (r: seq<byte>)
    ensures |r| == 4
  {
    LittleEndian(AsUnsigned(if b then BOOL_TRUE else BOOL_FALSE, TWO_32), 4)
  }

  /** u128: high64 big-endian, then low64 big-endian. */
  function U128Bytes(x: nat): (r: seq<byte>)
    ensures |r| == 16
  {
    BigEndian(x / TWO_64, 8) + BigEndian(x % TWO_64, 8)
  }

  function IntBytes(t: IntType, x: int): (r: seq<byte>)
    ensures |r| == Width(t)
  {
    match t
    case I8 | U8 => [AsUnsigned(x, 0x100)]
    case I16 | U16 | I32 | U32 | I64 | U64 => LittleEndian(AsUnsigned(x, Modulus(t)), Width(t))
    case I128 | U128 => U128Bytes(AsUnsigned(x, TWO_128))
  }

  /** (i128, i128): the second component, then the first. */
  function PairBytes(first: int, second: int): (r: seq<byte>)
    ensures |r| == 32
  {
    IntBytes(I128, second) + IntBytes(I128, first)
  }

  /** Number of zero bytes after a string payload of length len. It depends on
      len alone, not on the length prefix written before the payload. */
  function Padding(len: nat): (p: nat)
    ensures p < 4 && (len + p) % 4 == 0
  {
    if len % 4 > 0 then 4 - len % 4 else 0
  }

  function Zeros(n: nat): (r: seq<byte>)
    ensures |r| == n && forall i :: 0 <= i < n ==> r[i] == 0
  {
    seq(n, _ => 0)
  }

  /** One byte holding len when len <= 253, else 254 and len in 3 little-endian bytes. */
  function StringPrefix(len: nat): (r: seq<byte>)
    ensures |r| == if len <= 253 then 1 else 4
  {
    if len <= 253 then [len] else [254] + LittleEndian(len, 3)
  }

  function StringBytes(s: seq<byte>): (r: seq<byte>)
  {
    StringPrefix(|s|) + s + Zeros(Padding(|s|))
  }

  /** The vector tag, then the buffer length after the tag truncated to u32. */
  function VectorHeader(at: nat): (r: seq<byte>)
    ensures |r| == 8
  {
    LittleEndian(VECTOR_TAG, 4) + LittleEndian((at + 4) % TWO_32, 4)
  }

  /** The bytes Serialize appends for v to a buffer that holds at bytes. */
  function Encoding(v: Value, at: nat): (r: seq<byte>)
    decreases v
  {
    match v
    case Bool(b) => BoolBytes(b)
    case Int(t, x) => IntBytes(t, x)
    case Pair(first, second) => PairBytes(first, second)
    case Str(s) => StringBytes(s)
    case Vector(es) => VectorHeader(at) + Elements(es, at + 8)
  }

  /** The elements es serialized one after another, the first at offset at:
      each element is written where the ones before it end. */
  function Elements(es: seq<Value>, at: nat): (r: seq<byte>)
    decreases es
  {
    if |es| == 0 then []
    else
      var init := Elements(es[..|es| - 1], at);
      init + Encoding(es[|es| - 1], at + |init|)
  }

  /** impl Serialize for bool. */
  method SerializeBool(b: bool, buffer: Buffer)
    modifies buffer
    ensures buffer.data == old(buffer.data) + BoolBytes(b)
  {
    PowersOfTwo();
    if b {
      buffer.WriteUintLE(AsUnsigned(BOOL_TRUE, TWO_32), 4);
    } else {
      buffer.WriteUintLE(AsUnsigned(BOOL_FALSE, TWO_32), 4);
    }
  }

  /** impl Serialize for i8 and u8: a single pushed byte (`*self as u8`). */
  method SerializeByte(t: IntType, x: int, buffer: Buffer)
    requires (t.I8? || t.U8?) && InRange(t, x)
    modifies buffer
    ensures buffer.data == old(buffer.data) + IntBytes(t, x)
  {
    buffer.Push(AsUnsigned(x, 0x100));
  }

  /** impl_serialize!: i16, i32, i64, u16, u32, u64 through write_*::<LittleEndian>. */
  method SerializeLittleEndian(t: IntType, x: int, buffer: Buffer)
    requires (t.I16? || t.U16? || t.I32? || t.U32? || t.I64? || t.U64?) && InRange(t, x)
    modifies buffer
    ensures buffer.data == old(buffer.data) + IntBytes(t, x)
  {
    ModulusIsPower(t);
    buffer.WriteUintLE(AsUnsigned(x, Modulus(t)), Width(t));
  }

  /** impl Serialize for u128. */
  method SerializeU128(x: nat, buffer: Buffer)
    requires x < TWO_128
    modifies buffer
    ensures buffer.data == old(buffer.data) + U128Bytes(x)
  {
    PowersOfTwo();
    buffer.WriteUintBE(x / TWO_64, 8);
    buffer.WriteUintBE(x % TWO_64, 8);
  }

  /** impl Serialize for i128: serialize self.as_u128(). */
  method SerializeI128(x: int, buffer: Buffer)
    requires InRange(I128, x)
    modifies buffer
    ensures buffer.data == old(buffer.data) + IntBytes(I128, x)
  {
    SerializeU128(AsUnsigned(x, TWO_128), buffer);
  }

  /** impl Serialize for (i128, i128): self.1, then self.0. */
  method SerializePair(first: int, second: int, buffer: Buffer)
    requires InRange(I128, first) && InRange(I128, second)
    modifies buffer
    ensures buffer.data == old(buffer.data) + PairBytes(first, second)
  {
    SerializeI128(second, buffer);
    SerializeI128(first, buffer);
  }

  /** impl Serialize for String. */
  method SerializeString(s: seq<byte>, buffer: Buffer)
    requires |s| < Pow256(3)
    modifies buffer
    ensures buffer.data == old(buffer.data) + StringBytes(s)
  {
    var len := |s|;
    if len <= 253 {
      buffer.Push(len);
    } else {
      buffer.Push(254);
      buffer.WriteUintLE(len, 3);
    }
    buffer.Extend(s);
    ghost var written := buffer.data;
    assert written == old(buffer.data) + StringPrefix(len) + s;
    var rem := len % 4;
    if rem > 0 {
      var i := 0;
      while i < 4 - rem
        invariant 0 <= i <= 4 - rem
        invariant buffer.data == written + Zeros(i)
      {
        buffer.Push(0);
        i := i + 1;
      }
    }
  }

  /** impl<T: Serialize> Serialize for Vec<T>: the header, then the elements. */
  method SerializeVector(es: seq<Value>, buffer: Buffer)
    requires AllSerializable(es)
    modifies buffer
    ensures buffer.data == old(buffer.data) + Encoding(Vector(es), |old(buffer.data)|)
    decreases es, 1
  {
    ghost var at := |buffer.data|;
    WriteVectorHeader(buffer);
    ghost var header := buffer.data;
    SerializeElements(es, buffer);
    assert Encoding(Vector(es), at) == VectorHeader(at) + Elements(es, at + 8);
    assert buffer.data == header + Elements(es, at + 8);
  }

  /** The first half of the Vec impl: the type identifier, then `buffer.len() as u32`
      read after the identifier is written. */
  method WriteVectorHeader(buffer: Buffer)
    modifies buffer
    ensures buffer.data == old(buffer.data) + VectorHeader(|old(buffer.data)|)
  {
    assert VECTOR_TAG < Pow256(4) by { PowersOfTwo(); }
    buffer.WriteUintLE(VECTOR_TAG, 4);
    var len := buffer.Len();
    assert len % TWO_32 < Pow256(4) by { PowersOfTwo(); }
    buffer.WriteUintLE(len % TWO_32, 4);
  }

  /** The buffer after the element loop has appended es to buf: each element is
      written where the buffer ends. */
  function AfterElements(buf: seq<byte>, es: seq<Value>): (r: seq<byte>)
  {
    if |es| == 0 then buf
    else
      var b := AfterElements(buf, es[..|es| - 1]);
      b + Encoding(es[|es| - 1], |b|)
  }

  /** The element loop appends exactly the bytes Elements gives for the offset
      where it starts. */
  lemma {:induction false} AfterElementsAppends(buf: seq<byte>, es: seq<Value>)
    ensures AfterElements(buf, es) == buf + Elements(es, |buf|)
  {
    if |es| > 0 {
      var init := es[..|es| - 1];
      AfterElementsAppends(buf, init);
      var e := Elements(init, |buf|);
      AppendAssociates(buf, e, Encoding(es[|es| - 1], |buf| + |e|));
    } else {
      assert buf + [] == buf;
    }
  }

  /** Helper: concatenation regrouped. */
  lemma AppendAssociates(a: seq<byte>, b: seq<byte>, c: seq<byte>)
    ensures (a + b) + c == a + (b + c)
  {
  }

  /** The element loop of the Vec impl: each element serialized in turn. */
  method SerializeElements(es: seq<Value>, buffer: Buffer)
    requires AllSerializable(es)
    modifies buffer
    ensures buffer.data == old(buffer.data) + Elements(es, |old(buffer.data)|)
    decreases es, 0
  {
    var i := 0;
    while i < |es|
      invariant 0 <= i <= |es|
      invariant buffer.data == AfterElements(old(buffer.data), es[..i])
    {
      Serialize(es[i], buffer);
      assert es[..i + 1][..i] == es[..i];
      i := i + 1;
    }
    assert es[..|es|] == es;
    AfterElementsAppends(old(buffer.data), es);
  }

  /** The trait method serialize_to, dispatched on the kind of value. */
  method Serialize(v: Value, buffer: Buffer)
    requires Serializable(v)
    modifies buffer
    ensures buffer.data == old(buffer.data) + Encoding(v, |old(buffer.data)|)
    decreases v, 2
  {
    match v
    case Bool(b) => SerializeBool(b, buffer);
    case Int(t, x) =>
      assert Encoding(v, |buffer.data|) == IntBytes(t, x);
      match t {
        case I8 | U8 => SerializeByte(t, x, buffer);
        case I16 | U16 | I32 | U32 | I64 | U64 => SerializeLittleEndian(t, x, buffer);
        case I128 => SerializeI128(x, buffer);
        case U128 => SerializeU128(x, buffer);
      }
    case Pair(first, second) => SerializePair(first, second, buffer);
    case Str(s) => SerializeString(s, buffer);
    case Vector(es) => SerializeVector(es, buffer);
  }
}
