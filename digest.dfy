/** The whole digest as a specification: the padded buffer cut into 512-bit
    blocks of 16 little-endian words, the blocks compressed one after the other
    into the running digest from `h0..h3`, and the final `h0..h3` emitted as 16
    bytes, each word least significant byte first. */
module Digest {
  import opened Words
  import opened Padding
  import opened Rounds

  /** The 16 words of the block at byte `offset` of `p`: word `i` is `as_u32_le`
      of bytes `offset + 4 i .. offset + 4 i + 4`. */
  function BlockWords(p: seq<Byte>, offset: nat): (x: seq<Word>)
    requires offset + 64 <= |p|
    ensures |x| == 16
  {
    seq(16, i requires 0 <= i < 16 => AsU32Le(p[offset + i * 4..offset + i * 4 + 4]))
  }

  /** The 64 bytes of a block of 16 words, each least significant byte first. */
  function BlockBytes(x: seq<Word>): (s: seq<Byte>)
    ensures |s| == 4 * |x|
  {
    if x == [] then [] else WordBytes(x[0]) + BlockBytes(x[1..])
  }

  /** Words read from consecutive 4-byte groups of `p`, written back out, are
      those bytes of `p`. */
  lemma {:induction false} BlockBytesOfWords(p: seq<Byte>, offset: nat, x: seq<Word>)
    requires offset + 4 * |x| <= |p|
    requires forall i :: 0 <= i < |x| ==> x[i] == AsU32Le(p[offset + i * 4..offset + i * 4 + 4])
    ensures BlockBytes(x) == p[offset..offset + 4 * |x|]
    decreases |x|
  {
    if x != [] {
      assert x[0] == AsU32Le(p[offset..offset + 4]);
      WordBytesOfAsU32Le(p[offset..offset + 4]);
      BlockBytesOfWords(p, offset + 4, x[1..]);
      assert p[offset..offset + 4] + p[offset + 4..offset + 4 * |x|] == p[offset..offset + 4 * |x|];
    }
  }

  /** Cutting a block into words loses nothing: the words, written back out
      least significant byte first, are the 64 bytes of the block. */
  lemma BlockWordsRoundTrip(p: seq<Byte>, offset: nat)
    requires offset + 64 <= |p|
    ensures BlockBytes(BlockWords(p, offset)) == p[offset..offset + 64]
  {
    BlockBytesOfWords(p, offset, BlockWords(p, offset));
  }

  /** The running digest after the first `n` blocks of the buffer `p`. */
  function HashBlocks(p: seq<Byte>, n: nat): State
    requires 64 * n <= |p|
  {
    if n == 0 then Initial else Compress(HashBlocks(p, n - 1), BlockWords(p, 64 * (n - 1)))
  }

  /** The final `h0, h1, h2, h3` as 16 bytes, each word least significant byte first. */
  function Emit(h: State): (d: seq<Byte>)
    ensures |d| == 16
  {
    WordBytes(h.a) + WordBytes(h.b) + WordBytes(h.c) + WordBytes(h.d)
  }

  /** The digest is the bytes of `h0`, `h1`, `h2` and `h3` in that order. */
  lemma EmitWords(h: State)
    ensures Emit(h)[0..4] == WordBytes(h.a) && Emit(h)[4..8] == WordBytes(h.b)
    ensures Emit(h)[8..12] == WordBytes(h.c) && Emit(h)[12..16] == WordBytes(h.d)
  {
  }

  /** Reads the four words back out of 16 digest bytes. */
  function DigestState(d: seq<Byte>): State
    requires |d| == 16
  {
    State(AsU32Le(d[0..4]), AsU32Le(d[4..8]), AsU32Le(d[8..12]), AsU32Le(d[12..16]))
  }

  /** Emitting loses nothing: the 16 bytes determine `h0..h3`. */
  lemma DigestStateOfEmit(h: State)
    ensures DigestState(Emit(h)) == h
  {
    EmitWords(h);
    AsU32LeOfWordBytes(h.a);
    AsU32LeOfWordBytes(h.b);
    AsU32LeOfWordBytes(h.c);
    AsU32LeOfWordBytes(h.d);
  }

  /** The final `h0..h3` for `msg`: every block of the padded buffer compressed
      in turn, starting from the initial `h0..h3`. */
  function MessageState(msg: seq<Byte>): State
    requires |msg| < UsizeLimit
  {
    var p := Pad(msg);
    HashBlocks(p, |p| / 64)
  }

  /** The MD5 digest of `msg`: its final `h0..h3` as 16 bytes. */
  function MessageDigest(msg: seq<Byte>): (d: seq<Byte>)
    requires |msg| < UsizeLimit
    ensures |d| == 16 && DigestState(d) == MessageState(msg)
  {
    DigestStateOfEmit(MessageState(msg));
    Emit(MessageState(msg))
  }
}
