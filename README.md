# TL binary serialization of telegram-rs, in Dafny

This project models the `Serialize` trait of telegram-rs (`telegram/src/ser.rs`). The trait is
the append-only writer that turns MTProto values into their TL binary form. Every
`serialize_to` call appends bytes to a caller-owned `Vec<u8>`.

- `bytes.dfy` (module `Bytes`): bytes and the little-endian and big-endian layouts of unsigned
  numbers, each with its decoder. It proves the round-trip laws in both directions, and how
  big-endian decoding splits over a concatenation.
- `buffer.dfy` (module `ByteBuffer`): the class `Buffer`. Its field `data` stands for the Vec.
  Its methods are the writes the serializer uses: `push`, `extend`, `len`, and byteorder's
  `write_*::<LittleEndian>` and `write_u64::<BigEndian>`. Each one appends, and states exactly
  what it appends.
- `ser.dfy` (module `Ser`):
  - one method per `Serialize` impl (bool, i8, u8, the six `impl_serialize!` types, i128,
    u128, `(i128, i128)`, `String` and `Vec<T>`), plus the dispatcher `Serialize`;
  - the pure function `Encoding(v, at)`. Each method is proved to append exactly
    `Encoding(v, at)` to a buffer that held `at` bytes.
- `layout.dfy` (module `Layout`): what those bytes are. It covers:
  - widths, byte order and the two's-complement form of negative integers;
  - the bool magic words;
  - the nonce of the `req_pq` example;
  - the string prefix, payload and padding;
  - the vector header;
  - the place of each vector element;
  - the fact that sizes do not depend on the offset.
- `deser.dfy` (module `Deser`): a reader for bare values. The source has no reader; this one
  is the inverse the writer is checked against. Every non-vector value is read back from its
  own encoding, whatever follows it. Every proper prefix of an encoding is rejected as
  truncated.

Where the source comments and the code differ, the model follows the code:

- **Vec length word.** `Vec<T>` writes `buffer.len() as u32` after the tag
  (`telegram/src/ser.rs:154`). That is the length of the whole buffer at that point, truncated
  to 32 bits, not the number of elements. This is why `Encoding` takes the offset `at`, and
  why `Layout.VectorLengthIsNotCount` exhibits a one-element vector whose length word is 4.
- **String padding.** The padding is `(4 - L % 4) % 4` and counts the payload only
  (`telegram/src/ser.rs:137-142`). The comment says the whole value is a multiple of four
  bytes. That holds for long strings (4-byte prefix). Short strings (1-byte prefix) end one
  byte past a multiple of four, as `Layout.StringAlignment` states.

## Model

| member | source | states |
|---|---|---|
| Ser.Serialize | telegram/src/ser.rs:22-25 | `serialize_to` on any serializable value appends exactly `Encoding(v, at)` to the buffer, where `at` is the buffer's length before the call; the bytes already there are kept |
| Ser.SerializeBool | telegram/src/ser.rs:27-38 | bool appends the i32 -1720552011 for true, or -1132882121 for false, as four little-endian bytes |
| Ser.SerializeByte | telegram/src/ser.rs:40-56 | i8 and u8 push one byte: the value's bits (`as u8`) |
| Ser.SerializeLittleEndian | telegram/src/ser.rs:9-20 | the `impl_serialize!` types i16, i32, i64, u16, u32 and u64 append Width(t) little-endian bytes of the value's two's-complement bits |
| Ser.SerializeI128 | telegram/src/ser.rs:69-74 | i128 appends what u128 appends for `as_u128()`, the value modulo 2^128 |
| Ser.SerializeU128 | telegram/src/ser.rs:76-94 | u128 appends high64 big-endian, then low64 big-endian |
| Ser.SerializePair | telegram/src/ser.rs:96-109 | (i128, i128) appends `self.1`, then `self.0` |
| Ser.SerializeString | telegram/src/ser.rs:111-146 | String appends the length prefix, the payload, then the zero padding the loop pushes (its invariant: exactly i zeros so far) |
| Ser.SerializeVector | telegram/src/ser.rs:148-165 | `Vec<T>` appends the header, then every element in order, each at the offset where the previous one ends |
| Ser.WriteVectorHeader | telegram/src/ser.rs:150-155 | the vector tag 0x1cb5c415, then `buffer.len() as u32`, read after the tag is written |
| Ser.SerializeElements | telegram/src/ser.rs:157-161 | the element loop keeps the invariant that the buffer is `AfterElements` of its old contents and elements 0..i-1; on exit the loop has appended exactly `Elements(es, at)` |
| Ser.AfterElementsAppends | telegram/src/ser.rs:157-161 | writing the elements one after another, each where the buffer then ends, appends exactly the bytes `Elements` gives for the starting offset |
| ByteBuffer.Buffer.WriteUintLE | telegram/src/ser.rs:129 | `write_uint::<LittleEndian>(n, w)` appends the w low bytes of n, least significant first; n must fit in w bytes |
| ByteBuffer.Buffer.WriteUintBE | telegram/src/ser.rs:89-90 | `write_u64::<BigEndian>` appends the 8 bytes of n, most significant first |
| ByteBuffer.Buffer.Push | telegram/src/ser.rs:43 | `push` appends one byte |
| ByteBuffer.Buffer.Extend | telegram/src/ser.rs:133 | `extend` appends the given bytes in order |
| ByteBuffer.Buffer.Len | telegram/src/ser.rs:154 | `len` is the number of bytes written so far |
| Bytes.LittleEndianRoundTrip | telegram/src/ser.rs:129 | reading back the w little-endian bytes of any n < 256^w gives n |
| Bytes.LittleEndianOfDecoded | telegram/src/ser.rs:129 | every w-byte sequence is the little-endian form of the number it reads as (the layout is a bijection) |
| Bytes.BigEndianRoundTrip | telegram/src/ser.rs:89-90 | reading back the w big-endian bytes of any n < 256^w gives n |
| Bytes.BigEndianOfDecoded | telegram/src/ser.rs:89-90 | every w-byte sequence is the big-endian form of the number it reads as |
| Bytes.FromBigEndianAppend | telegram/src/ser.rs:89-90 | big-endian bytes written one after another read as one number, the first part being the high part |
| Layout.BoolWords | telegram/src/ser.rs:30-34 | true is B5 75 72 99 and false is 37 97 79 BC; the two words differ |
| Layout.LittleEndianInts | telegram/src/ser.rs:40-64 | the bytes of i8 through u64 read little-endian as x mod 2^(8w); a signed value is negative exactly when the top bit is set |
| Layout.U128IsBigEndian | telegram/src/ser.rs:76-94 | the two 8-byte halves together are the 16-byte big-endian form of the u128, and they read back as it |
| Layout.I128IsBigEndian | telegram/src/ser.rs:69-74 | i128 is the 16-byte big-endian form of its value modulo 2^128 |
| Layout.NonceVector | examples/create_auth_key/src/main.rs:24-26 | the `req_pq` nonce 0x3E0549828CCA27E966B301A48FECE2FC serializes to 3E 05 49 82 8C CA 27 E9 66 B3 01 A4 8F EC E2 FC |
| Layout.PairLayout | telegram/src/ser.rs:96-109 | an int256 pair is 32 bytes: the second component big-endian, then the first |
| Layout.StringLayout | telegram/src/ser.rs:111-146 | a string is a prefix byte L (L <= 253), or 254 with L in three little-endian bytes; then the payload unchanged; then (4 - L % 4) % 4 zero bytes |
| Layout.StringAlignment | telegram/src/ser.rs:113-142 | long strings total a multiple of four bytes; short strings total one more than a multiple of four; the empty string is the single byte 0 |
| Layout.VectorHeaderLayout | telegram/src/ser.rs:148-165 | a vector starts with 15 C4 B5 1C, then a word that reads as the buffer length after the tag mod 2^32; then come the elements, whatever they are |
| Layout.VectorLengthIsNotCount | telegram/src/ser.rs:153-155 | at the start of an empty buffer, the length word of a one-element vector is 4 |
| Layout.ElementsPrefix | telegram/src/ser.rs:157-161 | the bytes of the first j elements are a prefix of the bytes of all of them |
| Layout.ElementAt | telegram/src/ser.rs:157-161 | element i's encoding sits in the vector's bytes exactly where the encodings of elements 0..i-1 end |
| Layout.EncodingSizeIndependentOfOffset | telegram/src/ser.rs:148-165 | the number of bytes any value takes does not depend on where it is written |
| Layout.EncodingAtAnyOffset | telegram/src/ser.rs:148-165 | a bool, integer, pair or string is written identically at every offset; a vector starts with the same tag bytes and takes the same number of bytes at every offset |
| Layout.ElementsSizeIndependentOfOffset | telegram/src/ser.rs:157-161 | the same for a list of elements |
| Deser.ReadIntRoundTrip | telegram/src/ser.rs:40-94 | reading an integer's bytes with its type's byte order and two's complement gives the integer back |
| Deser.DecodeEncoding | telegram/src/ser.rs:27-146 | every serializable bool, integer, int256 pair and string is read back from its encoding, whatever follows it; exactly its bytes are consumed |
| Deser.DecodeBool | telegram/src/ser.rs:27-38 | both bool words are read back as the bool they encode |
| Deser.DecodeInt | telegram/src/ser.rs:40-94 | every integer type's bytes are read back as the value, consuming Width(t) bytes |
| Deser.DecodePair | telegram/src/ser.rs:96-109 | the 32 pair bytes are read back as the pair, components in their original order, even though `self.1` is written first |
| Deser.DecodeString | telegram/src/ser.rs:111-146 | a string is read back with either prefix form, and its padding is consumed |
| Deser.DecodeBoolExactly | telegram/src/ser.rs:30-34 | a bool is accepted exactly when the input starts with its word; any other four bytes are never read as true or false |
| Deser.DecodeRejectsTruncated | telegram/src/ser.rs:27-146 | no proper prefix of such an encoding is accepted; each one is rejected as truncated |

## Left out

- f32 and f64 (`telegram/src/ser.rs:66-67`): floating point is not modelled.
- `impl Serialize for Box<Any>` (`telegram/src/ser.rs:167-178`): a dynamic downcast to a trait object, or a panic. The closed `Value` datatype stands in for the trait objects.
- `Vec<T>` homogeneity: a Rust vector holds elements of one type T. `Value.Vector` may mix kinds, so the model admits more vectors than the source can build. Every property proved holds for those too.
- Errors: `serialize_to` returns `error::Result<()>`. Every write into a `Vec<u8>` succeeds, so the methods have no error result.
- `write_uint` panics when L does not fit in three bytes. That is a `requires |s| < 2^24` on `Ser.SerializeString`, and part of `Ser.Serializable`.
- Rust strings are UTF-8. The model takes the string's bytes (`as_bytes`) as given and does not check UTF-8 validity.
- Reading vectors: `Deser.Decode` has no vector case. The length word is a buffer offset, not a count, so the bytes do not say how many elements follow.
- The reader in `deser.dfy` is not code from the repository. It is an inverse written for the proofs.
- Boxed type identifiers of schema constructors, the request envelope, and `client.rs`: they are not part of this model.
- The `examples/create_auth_key/src/main.rs` program (HTTP, printing): only its nonce is used, as a known byte layout.
