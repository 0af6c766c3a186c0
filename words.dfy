/** Bytes, 32-bit words, and the little-endian conversions between them
    (`as_u32_le` in src/main.rs, and the byte order of the final digest). */
module Words {

  /** An unsigned 8-bit byte (`u8`). */
  type Byte = bv8

  /** An unsigned 32-bit word (`u32`); `+` on it wraps modulo 2^32, like `wrapping_add`. */
  type Word = bv32

  /** `as_u32_le`: the first four bytes of `s` read as a little-endian word.
      The four shifted bytes occupy disjoint bits, so the wrapping sums never
      carry and the result is the bitwise OR of the shifted bytes. The source
      indexes `array[0..4]` and panics on a shorter slice, hence the requires. */
  function AsU32Le(s: seq<Byte>): (w: Word)
    requires |s| >= 4
    ensures w == s[0] as Word | (s[1] as Word << 8) | (s[2] as Word << 16) | (s[3] as Word << 24)
  {
    (s[0] as Word << 0) + (s[1] as Word << 8) + (s[2] as Word << 16) + (s[3] as Word << 24)
  }

  /** The four bytes of `w`, least significant first. */
  function WordBytes(w: Word): (s: seq<Byte>)
    ensures |s| == 4
  {
    [(w & 0xff) as Byte, ((w >> 8) & 0xff) as Byte, ((w >> 16) & 0xff) as Byte, (w >> 24) as Byte]
  }

  /** Reading back the bytes of a word gives the word. */
  lemma AsU32LeOfWordBytes(w: Word)
    ensures AsU32Le(WordBytes(w)) == w
  {
  }

  /** Every four bytes are the bytes of the word they decode to: `as_u32_le` is a bijection. */
  lemma WordBytesOfAsU32Le(s: seq<Byte>)
    requires |s| == 4
    ensures WordBytes(AsU32Le(s)) == s
  {
  }

  /** Widening a byte to a word keeps its value. */
  lemma WidenByte(x: Byte)
    ensures (x as Word) as int == x as int && x as Word < 0x100
  {
  }

  /** One Horner step: shifting a small word left by 8 bits and OR-ing in a byte
      computes `256 * v + x` on the integers, and stays below 2^(8(k+1)). */
  lemma ShiftInByte(v: Word, x: Byte)
    requires v < 0x100_0000
    ensures ((v << 8) | x as Word) as int == 256 * v as int + x as int
    ensures v < 0x100 ==> (v << 8) | x as Word < 0x1_0000
    ensures v < 0x1_0000 ==> (v << 8) | x as Word < 0x100_0000
  {
  }

  /** `as_u32_le` computed by Horner's rule, most significant byte first. */
  lemma AsU32LeHorner(s: seq<Byte>)
    requires |s| >= 4
    ensures AsU32Le(s) == (((((s[3] as Word << 8) | s[2] as Word) << 8) | s[1] as Word) << 8) | s[0] as Word
  {
  }

  /** The value of `as_u32_le` as an integer is `a[0] + 256 a[1] + 65536 a[2] + 16777216 a[3]`:
      the additions of the source never overflow. */
  lemma AsU32LeValue(s: seq<Byte>)
    requires |s| >= 4
    ensures AsU32Le(s) as int
         == s[0] as int + 256 * s[1] as int + 65536 * s[2] as int + 16777216 * s[3] as int
  {
    var t3 := s[3] as Word;
    var t2 := (t3 << 8) | s[2] as Word;
    var t1 := (t2 << 8) | s[1] as Word;
    WidenByte(s[3]);
    ShiftInByte(t3, s[2]);
    ShiftInByte(t2, s[1]);
    ShiftInByte(t1, s[0]);
    AsU32LeHorner(s);
  }

  /** `u.wrapping_add(v)`: the sum modulo 2^32. */
  function WrappingAdd(u: Word, v: Word): Word {
    u + v
  }
}
