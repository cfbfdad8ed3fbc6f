/** The caller-owned output buffer: Rust's Vec<u8> together with the
    byteorder WriteBytesExt writes the serializer calls on it. Every
    operation only appends; none can fail. */
module ByteBuffer {
  import opened Bytes

  class Buffer {
    /** The bytes written so far, in order. */
    var data: seq<byte>

    /** Vec::new(): an empty buffer. */
    constructor ()
      ensures data == []
    {
      data := [];
    }

    /** Vec::len(): the number of bytes written so far. */
    method Len() returns (n: nat)
      ensures n == |data|
    {
      n := |data|;
    }

    /** Vec::push: appends one byte. */
    method Push(b: byte)
      modifies this
      ensures data == old(data) + [b]
    {
      data := data + [b];
    }

    /** Vec::extend: appends a slice of bytes. */
    method Extend(bs: seq<byte>)
      modifies this
      ensures data == old(data) + bs
    {
      data := data + bs;
    }

    /** write_uint::<LittleEndian>(n, w) and the fixed-width write_u*::<LittleEndian>
        writes: the w low bytes of n, least significant first. byteorder refuses
        (panics on) a value that does not fit in w bytes, hence the requires. */
    method WriteUintLE(n: nat, w: nat)
      requires n < Pow256(w)
      modifies this
      ensures data == old(data) + LittleEndian(n, w)
    {
      data := data + LittleEndian(n, w);
    }

    /** write_u64::<BigEndian> and its kin: the w low bytes of n, most significant first. */
    method WriteUintBE(n: nat, w: nat)
      requires n < Pow256(w)
      modifies this
      ensures data == old(data) + BigEndian(n, w)
    {
      data := data + BigEndian(n, w);
    }
  }
}
