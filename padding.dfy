/** Padding and length framing of the message (sections 3.1 and 3.2 of RFC 1321):
    one 0x80 byte, the fewest zero bytes that leave the buffer 8 bytes short of a
    multiple of 64, then the message length in bits as 8 little-endian bytes. */
module Padding {
  import opened Words

  /** One more than the largest `usize`, which is 64 bits wide. */
  const UsizeLimit: nat := 0x1_0000_0000_0000_0000

  /** An unsigned machine-word length (`usize`). */
  type Usize = n: nat | n < UsizeLimit

  /** A buffer length the block loop can consume without a partial block. */
  predicate Aligned(len: int) {
    len % 64 == 0
  }

  /** `initial_len * 8` as a 64-bit `usize`: the multiplication wraps modulo 2^64. */
  function BitLength(initialLen: Usize): bv64 {
    (initialLen as bv64) * 8
  }

  /** `to_le_bytes` of a 64-bit value: its 8 bytes, least significant first. */
  function LeBytes(v: bv64): (s: seq<Byte>)
    ensures |s| == 8
  {
    [(v & 0xff) as Byte, ((v >> 8) & 0xff) as Byte, ((v >> 16) & 0xff) as Byte,
     ((v >> 24) & 0xff) as Byte, ((v >> 32) & 0xff) as Byte, ((v >> 40) & 0xff) as Byte,
     ((v >> 48) & 0xff) as Byte, (v >> 56) as Byte]
  }

  /** The 64-bit value that 8 little-endian bytes denote. */
  function LeWord64(s: seq<Byte>): bv64
    requires |s| == 8
  {
    s[0] as bv64 | (s[1] as bv64 << 8) | (s[2] as bv64 << 16) | (s[3] as bv64 << 24)
    | (s[4] as bv64 << 32) | (s[5] as bv64 << 40) | (s[6] as bv64 << 48) | (s[7] as bv64 << 56)
  }

  /** Decoding the little-endian bytes of a 64-bit value gives it back. */
  lemma LeWord64OfLeBytes(v: bv64)
    ensures LeWord64(LeBytes(v)) == v
  {
  }

  /** Any 8 bytes are the little-endian bytes of the value they denote. */
  lemma LeBytesOfLeWord64(s: seq<Byte>)
    requires |s| == 8
    ensures LeBytes(LeWord64(s)) == s
  {
  }

  /** The number of zero bytes pushed after the 0x80 byte of a message of `n` bytes:
      the fill loop stops at the first length `lc` with `(lc + 8) % 64 == 0`. */
  function ZeroFill(n: nat): (z: nat)
    ensures z < 64
    ensures Aligned(n + 1 + z + 8)
    ensures forall len :: n + 9 <= len < n + 9 + z ==> !Aligned(len)
  {
    (55 - n) % 64
  }

  /** `n` zero bytes. */
  function Zeros(n: nat): (s: seq<Byte>)
    ensures |s| == n && forall i :: 0 <= i < n ==> s[i] == 0
  {
    seq(n, _ => 0)
  }

  /** The padded buffer: message, 0x80, zero fill, 64-bit bit length. */
  function Pad(msg: seq<Byte>): (p: seq<Byte>)
    requires |msg| < UsizeLimit
    ensures Aligned(|p|)
    ensures |msg| + 9 <= |p| < |msg| + 9 + 64
  {
    msg + [0x80] + Zeros(ZeroFill(|msg|)) + LeBytes(BitLength(|msg|))
  }

  /** The layout of the padded buffer: it starts with the message, then one 0x80
      byte, then only zero bytes, and its last 8 bytes decode (little-endian) to
      the message length in bits modulo 2^64. */
  lemma PadLayout(msg: seq<Byte>)
    requires |msg| < UsizeLimit
    ensures var p := Pad(msg);
      && p[..|msg|] == msg
      && p[|msg|] == 0x80
      && (forall i :: |msg| < i < |p| - 8 ==> p[i] == 0)
      && LeWord64(p[|p| - 8..]) == BitLength(|msg|)
  {
    var p := Pad(msg);
    assert p[|p| - 8..] == LeBytes(BitLength(|msg|));
    LeWord64OfLeBytes(BitLength(|msg|));
  }

  /** The padding boundary: 55 bytes fit in one block with no zero fill,
      56 bytes need a second block. */
  lemma PadBoundary(msg: seq<Byte>)
    ensures |msg| == 55 ==> |Pad(msg)| == 64 && ZeroFill(|msg|) == 0
    ensures |msg| == 56 ==> |Pad(msg)| == 128 && ZeroFill(|msg|) == 63
  {
  }
}
