/** Unsigned 32-bit integers as four big-endian bytes, as Go's
    `binary.BigEndian.PutUint32` writes them and `binary.BigEndian.Uint32`
    reads them back. */
module BigEndian {

  /** A Go `byte`. */
  type Byte = b: int | 0 <= b < 256

  /** 2^32: every `uint32` lies below it. */
  const Two32: nat := 0x1_0000_0000

  /** The value of four bytes read most significant first. */
  function DecodeUint32(b: seq<Byte>): (v: nat)
    requires |b| == 4
    ensures v < Two32
    ensures v / 0x100_0000 == b[0] && v % 256 == b[3]
  {
    (b[0] as int) * 0x100_0000 + (b[1] as int) * 0x1_0000 + (b[2] as int) * 0x100 + b[3] as int
  }

  /** The four bytes of a `uint32`, most significant first: byte k is
      `byte(v >> (24 - 8 * k))`, obtained here by peeling off one byte at a
      time. */
  function EncodeUint32(v: nat): (b: seq<Byte>)
    requires v < Two32
    ensures |b| == 4 && DecodeUint32(b) == v
  {
    var r0 := v % 0x100_0000;
    var r1 := r0 % 0x1_0000;
    [v / 0x100_0000, r0 / 0x1_0000, r1 / 0x100, r1 % 0x100]
  }

  /** Encoding is also a left inverse of decoding: every four bytes are the
      encoding of exactly one value, so the prefix carries no slack. */
  lemma EncodeDecode(b: seq<Byte>)
    requires |b| == 4
    ensures EncodeUint32(DecodeUint32(b)) == b
  {
    var v := DecodeUint32(b);
    var e := EncodeUint32(v);
    assert e[0] == b[0];
    assert e[1] == b[1];
    assert e[2] == b[2];
    assert e[3] == b[3];
  }

  /** Two byte strings with the same value are the same bytes. */
  lemma DecodeInjective(a: seq<Byte>, b: seq<Byte>)
    requires |a| == 4 && |b| == 4
    ensures DecodeUint32(a) == DecodeUint32(b) <==> a == b
  {
    if DecodeUint32(a) == DecodeUint32(b) {
      EncodeDecode(a);
      EncodeDecode(b);
    }
  }

  /** The zero length is exactly the all-zero prefix. */
  lemma DecodeZero(b: seq<Byte>)
    requires |b| == 4
    ensures DecodeUint32(b) == 0 <==> b == [0, 0, 0, 0]
  {
    DecodeInjective(b, [0, 0, 0, 0]);
  }
}
