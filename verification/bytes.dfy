/** Bytes and the 4-byte little-endian length prefix of the native-messaging wire format. */
module Bytes {

  newtype byte = b: int | 0 <= b < 256

  /** 2^32: the first length a 4-byte prefix cannot hold. */
  const U32Limit: int := 0x1_0000_0000

  /** `n.to_bytes(4, byteorder="little")`, for an `n` that fits. */
  function EncodeU32(n: nat): (b: seq<byte>)
    requires n < U32Limit
    ensures |b| == 4
    ensures b[0] as int == n % 0x100
    ensures b[3] as int == n / 0x100_0000
  {
    [(n % 0x100) as byte,
     (n / 0x100 % 0x100) as byte,
     (n / 0x1_0000 % 0x100) as byte,
     (n / 0x100_0000) as byte]
  }

  /** `int.from_bytes(b, byteorder="little")` for exactly four bytes. */
  function DecodeU32(b: seq<byte>): (n: nat)
    requires |b| == 4
    ensures n < U32Limit
    ensures n % 0x100 == b[0] as int
  {
    b[0] as int + 0x100 * b[1] as int + 0x1_0000 * b[2] as int + 0x100_0000 * b[3] as int
  }

  /** Decoding a prefix written by the encoder gives the length back. */
  lemma DecodeEncodeU32(n: nat)
    requires n < U32Limit
    ensures DecodeU32(EncodeU32(n)) == n
  {
    var b := EncodeU32(n);
    var q1 := n / 0x100;
    var q2 := q1 / 0x100;
    var q3 := q2 / 0x100;
    assert n == b[0] as int + 0x100 * q1;
    assert q1 == b[1] as int + 0x100 * q2;
    assert n / 0x1_0000 == q2;
    assert q2 == b[2] as int + 0x100 * q3;
    assert n / 0x100_0000 == q3;
  }

  /** Every four bytes are the encoding of exactly one length: the prefix format is a bijection. */
  lemma EncodeDecodeU32(b: seq<byte>)
    requires |b| == 4
    ensures EncodeU32(DecodeU32(b)) == b
  {
    var n := DecodeU32(b);
    var r1 := b[1] as int + 0x100 * b[2] as int + 0x1_0000 * b[3] as int;
    var r2 := b[2] as int + 0x100 * b[3] as int;
    SplitByte(b[0] as int, r1);
    SplitByte(b[1] as int, r2);
    SplitByte(b[2] as int, b[3] as int);
    assert n == (b[0] as int + 0x100 * b[1] as int) + 0x1_0000 * r2;
    assert n == (b[0] as int + 0x100 * b[1] as int + 0x1_0000 * b[2] as int) + 0x100_0000 * b[3] as int;
  }

  /** Splitting `lo + 256 * hi` back into its low byte and the rest. */
  lemma SplitByte(lo: int, hi: nat)
    requires 0 <= lo < 0x100
    ensures (lo + 0x100 * hi) % 0x100 == lo
    ensures (lo + 0x100 * hi) / 0x100 == hi
  {
  }
}
