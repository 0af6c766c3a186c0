/** The line `md5` prints: each of `h0..h3` byte-swapped by `to_be()` and
    written in lower-case hexadecimal. `PrintedLine` is the line as the format
    string `{:x}{:x}{:x}{:x}` writes it, without leading zeros; `DigestLine` is
    the zero-padded `{:08x}` rendering, which is the 32-digit digest of
    section 3.5 of RFC 1321. */
module Render {
  import opened Words
  import opened Rounds
  import opened Padding
  import opened Digest

  /** `16^k`. */
  function Pow16(k: nat): (p: nat)
    ensures p >= 1
  {
    if k == 0 then 1 else 16 * Pow16(k - 1)
  }

  /** A lower-case hexadecimal digit. */
  predicate IsHexDigit(c: char) {
    '0' <= c <= '9' || 'a' <= c <= 'f'
  }

  /** A string made only of lower-case hexadecimal digits. */
  predicate IsHex(s: string) {
    forall i :: 0 <= i < |s| ==> IsHexDigit(s[i])
  }

  /** The lower-case hexadecimal digit of `v`. */
  function HexDigit(v: nat): (c: char)
    requires v < 16
    ensures IsHexDigit(c)
  {
    if v < 10 then ('0' as int + v) as char else ('a' as int + v - 10) as char
  }

  /** The value of a hexadecimal digit; any other character reads as zero. */
  function DigitValue(c: char): (v: nat)
    ensures v < 16
  {
    if '0' <= c <= '9' then c as int - '0' as int
    else if 'a' <= c <= 'f' then c as int - 'a' as int + 10
    else 0
  }

  /** Each digit names its own value and each value has its own digit. */
  lemma DigitRoundTrip(v: nat, c: char)
    requires v < 16 && IsHexDigit(c)
    ensures DigitValue(HexDigit(v)) == v
    ensures HexDigit(DigitValue(c)) == c
  {
  }

  /** The value of a hexadecimal numeral, most significant digit first. */
  function HexValue(s: string): (v: nat)
    ensures v < Pow16(|s|)
  {
    if s == [] then 0 else 16 * HexValue(s[..|s| - 1]) + DigitValue(s[|s| - 1])
  }

  /** `{:x}` of `v`: its hexadecimal numeral without leading zeros (`0` for zero). */
  function HexNum(v: nat): (s: string)
    ensures |s| >= 1 && IsHex(s)
    decreases v
  {
    if v < 16 then [HexDigit(v)] else HexNum(v / 16) + [HexDigit(v % 16)]
  }

  /** `{:0kx}` of `v`: its last `k` hexadecimal digits, padded with leading zeros. */
  function HexPadded(v: nat, k: nat): (s: string)
    ensures |s| == k && IsHex(s)
  {
    if k == 0 then [] else HexPadded(v / 16, k - 1) + [HexDigit(v % 16)]
  }

  /** Dropping the last digit of a numeral divides its value by 16. */
  lemma HexValueOfSnoc(s: string, c: char)
    ensures HexValue(s + [c]) == 16 * HexValue(s) + DigitValue(c)
  {
    assert (s + [c])[..|s|] == s;
  }

  /** `{:x}` loses nothing: the numeral reads back as `v`. */
  lemma {:induction false} HexValueOfHexNum(v: nat)
    ensures HexValue(HexNum(v)) == v
    decreases v
  {
    DigitRoundTrip(v % 16, '0');
    if v >= 16 {
      HexValueOfHexNum(v / 16);
      HexValueOfSnoc(HexNum(v / 16), HexDigit(v % 16));
    }
  }

  /** `{:0kx}` loses nothing for a value of at most `k` digits. */
  lemma {:induction false} HexValueOfHexPadded(v: nat, k: nat)
    requires v < Pow16(k)
    ensures HexValue(HexPadded(v, k)) == v
  {
    if k > 0 {
      DigitRoundTrip(v % 16, '0');
      HexValueOfHexPadded(v / 16, k - 1);
      HexValueOfSnoc(HexPadded(v / 16, k - 1), HexDigit(v % 16));
    }
  }

  /** `{:x}` of `v` has at most `k` digits exactly when `v < 16^k`: a value below
      `16^(k-1)` prints fewer than `k` digits. */
  lemma {:induction false} HexNumLength(v: nat, k: nat)
    requires k >= 1
    ensures |HexNum(v)| <= k <==> v < Pow16(k)
    decreases v
  {
    if v >= 16 {
      if k == 1 {
        assert |HexNum(v / 16)| >= 1;
      } else {
        HexNumLength(v / 16, k - 1);
      }
    } else if k > 1 {
      assert Pow16(k) == 16 * Pow16(k - 1);
    }
  }

  /** `to_be()` on a little-endian host: the word with its bytes in reverse order. */
  function ToBe(w: Word): (v: Word)
    ensures WordBytes(v) == [WordBytes(w)[3], WordBytes(w)[2], WordBytes(w)[1], WordBytes(w)[0]]
  {
    var b := WordBytes(w);
    WordBytesOfAsU32Le([b[3], b[2], b[1], b[0]]);
    AsU32Le([b[3], b[2], b[1], b[0]])
  }

  /** Swapping the bytes twice gives the word back. */
  lemma ToBeToBe(w: Word)
    ensures ToBe(ToBe(w)) == w
  {
    var b := WordBytes(w);
    assert WordBytes(ToBe(ToBe(w))) == b;
    AsU32LeOfWordBytes(ToBe(ToBe(w)));
    AsU32LeOfWordBytes(w);
  }

  /** The value of `to_be()` of a word is its least significant byte times 2^24
      plus ... plus its most significant byte: the bytes read big-endian. */
  lemma ToBeValue(w: Word)
    ensures ToBe(w) as int
         == 16777216 * WordBytes(w)[0] as int + 65536 * WordBytes(w)[1] as int
          + 256 * WordBytes(w)[2] as int + WordBytes(w)[3] as int
  {
    var b := WordBytes(w);
    AsU32LeValue([b[3], b[2], b[1], b[0]]);
  }

  /** The line `md5` prints, as written: `{:x}` of each `to_be()` word, unpadded. */
  function PrintedLine(h: State): string {
    HexNum(ToBe(h.a) as int) + HexNum(ToBe(h.b) as int) + HexNum(ToBe(h.c) as int) + HexNum(ToBe(h.d) as int)
  }

  /** A 32-bit word prints at most 8 digits. */
  lemma WordDigits(w: Word)
    ensures |HexNum(w as int)| <= 8
  {
    assert Pow16(8) == 0x1_0000_0000;
    HexNumLength(w as int, 8);
  }

  /** The printed line has between 4 and 32 digits. */
  lemma PrintedLineLength(h: State)
    ensures 4 <= |PrintedLine(h)| <= 32
  {
    WordDigits(ToBe(h.a));
    WordDigits(ToBe(h.b));
    WordDigits(ToBe(h.c));
    WordDigits(ToBe(h.d));
  }

  /** A word whose least significant byte is below 0x10 has a `to_be()` below
      16^7, so that `{:x}` prints at most 7 digits for it. */
  lemma SmallLeadingByte(w: Word)
    requires WordBytes(w)[0] < 0x10
    ensures |HexNum(ToBe(w) as int)| <= 7
  {
    ToBeValue(w);
    assert Pow16(7) == 0x1000_0000;
    HexNumLength(ToBe(w) as int, 7);
  }

  /** When the first digest byte is below 0x10 the printed line drops its leading
      zero and is shorter than the 32 digits of the digest. */
  lemma ShortPrintedLine(h: State)
    requires Emit(h)[0] < 0x10
    ensures |PrintedLine(h)| < 32
  {
    EmitWords(h);
    SmallLeadingByte(h.a);
    WordDigits(ToBe(h.b));
    WordDigits(ToBe(h.c));
    WordDigits(ToBe(h.d));
  }

  /** For every message whose digest starts with a byte below 0x10 (one in 16 of
      them), the line as written is shorter than the 32-digit digest line. */
  lemma ShortLineOfMessage(msg: seq<Byte>)
    requires |msg| < UsizeLimit && MessageDigest(msg)[0] < 0x10
    ensures |PrintedLine(MessageState(msg))| < |DigestLine(MessageState(msg))|
  {
    ShortPrintedLine(MessageState(msg));
  }

  /** The digest of the one-byte message "a" in the test suite of section A.5
      of RFC 1321, 0cc175b9c0f1b6a831c399e269772661, read back into `h0..h3`
      (the words are taken from the test suite, not computed here). It starts
      with the byte 0x0c, so the line as written is
      cc175b9c0f1b6a831c399e269772661, 31 digits. */
  lemma ShortLineOfA()
    ensures |PrintedLine(State(0xb975c10c, 0xa8b6f1c0, 0xe299c331, 0x61267769))| < 32
  {
    var h := State(0xb975c10c, 0xa8b6f1c0, 0xe299c331, 0x61267769);
    EmitWords(h);
    assert WordBytes(h.a)[0] == 0x0c;
    ShortPrintedLine(h);
  }

  /** The corrected line: `{:08x}` of each `to_be()` word, 32 digits in all. */
  function DigestLine(h: State): (s: string)
    ensures |s| == 32
  {
    HexPadded(ToBe(h.a) as int, 8) + HexPadded(ToBe(h.b) as int, 8)
    + HexPadded(ToBe(h.c) as int, 8) + HexPadded(ToBe(h.d) as int, 8)
  }

  /** The word whose `to_be()` an 8-digit group names. */
  function ParseWord(s: string): Word
    requires |s| == 8
  {
    assert Pow16(8) == 0x1_0000_0000;
    ToBe(HexValue(s) as Word)
  }

  /** The two hexadecimal digits of a byte, high nibble first. */
  function HexPair(x: Byte): (s: string)
    ensures |s| == 2
  {
    [HexDigit(x as int / 16), HexDigit(x as int % 16)]
  }

  /** Bytes written in hexadecimal, two digits per byte, in order. */
  function HexBytes(s: seq<Byte>): (t: string)
    ensures |t| == 2 * |s|
  {
    if s == [] then [] else HexPair(s[0]) + HexBytes(s[1..])
  }

  /** Writing bytes in hexadecimal distributes over concatenation. */
  lemma {:induction false} HexBytesAppend(s: seq<Byte>, u: seq<Byte>)
    ensures HexBytes(s + u) == HexBytes(s) + HexBytes(u)
    decreases |s|
  {
    if s != [] {
      assert (s + u)[0] == s[0] && (s + u)[1..] == s[1..] + u;
      assert HexBytes(s + u) == HexPair(s[0]) + HexBytes(s[1..] + u);
      HexBytesAppend(s[1..], u);
    } else {
      assert s + u == u;
    }
  }

  /** Appending a byte to a number appends its two digits to the zero-padded rendering. */
  lemma HexPaddedShift(u: nat, x: Byte, k: nat)
    ensures HexPadded(256 * u + x as int, k + 2) == HexPadded(u, k) + HexPair(x)
  {
    var v := 256 * u + x as int;
    assert v / 16 == 16 * u + x as int / 16;
    assert (v / 16) / 16 == u && (v / 16) % 16 == x as int / 16;
    assert v % 16 == x as int % 16;
    assert HexPadded(v / 16, k + 1) == HexPadded(u, k) + [HexDigit(x as int / 16)];
  }

  /** The value of bytes read most significant first. */
  function BigEndianValue(s: seq<Byte>): nat {
    if s == [] then 0 else 256 * BigEndianValue(s[..|s| - 1]) + s[|s| - 1] as int
  }

  /** Bytes read most significant first, as a zero-padded numeral of two digits
      per byte, are the bytes in hexadecimal. */
  lemma {:induction false} HexPaddedOfBigEndian(s: seq<Byte>)
    ensures HexPadded(BigEndianValue(s), 2 * |s|) == HexBytes(s)
    decreases |s|
  {
    if s != [] {
      HexPaddedOfBigEndian(s[..|s| - 1]);
      HexPaddedShift(BigEndianValue(s[..|s| - 1]), s[|s| - 1], 2 * (|s| - 1));
      HexBytesAppend(s[..|s| - 1], [s[|s| - 1]]);
      assert s[..|s| - 1] + [s[|s| - 1]] == s;
      assert BigEndianValue(s) == 256 * BigEndianValue(s[..|s| - 1]) + s[|s| - 1] as int;
      assert 2 * (|s| - 1) + 2 == 2 * |s|;
    }
  }

  /** Four bytes read most significant first. */
  lemma BigEndianOfFour(b: seq<Byte>)
    requires |b| == 4
    ensures BigEndianValue(b)
         == 16777216 * b[0] as int + 65536 * b[1] as int + 256 * b[2] as int + b[3] as int
  {
    assert BigEndianValue(b) == 256 * BigEndianValue(b[..3]) + b[3] as int;
    assert BigEndianValue(b[..3]) == 256 * BigEndianValue(b[..2]) + b[2] as int by {
      assert b[..3][..2] == b[..2];
    }
    assert BigEndianValue(b[..2]) == 256 * BigEndianValue(b[..1]) + b[1] as int by {
      assert b[..2][..1] == b[..1];
    }
    assert BigEndianValue(b[..1]) == b[0] as int by {
      assert b[..1][..0] == [];
    }
  }

  /** The 8 digits of a `to_be()` word are its 4 bytes in hexadecimal, least
      significant byte first. */
  lemma HexPaddedOfWord(w: Word)
    ensures HexPadded(ToBe(w) as int, 8) == HexBytes(WordBytes(w))
  {
    ToBeValue(w);
    BigEndianOfFour(WordBytes(w));
    HexPaddedOfBigEndian(WordBytes(w));
  }

  /** The corrected line is the 16 digest bytes in hexadecimal, two digits per
      byte: the 32-digit digest of section 3.5 of RFC 1321. */
  lemma DigestLineOfEmit(h: State)
    ensures DigestLine(h) == HexBytes(Emit(h))
  {
    HexPaddedOfWord(h.a);
    HexPaddedOfWord(h.b);
    HexPaddedOfWord(h.c);
    HexPaddedOfWord(h.d);
    HexBytesAppend(WordBytes(h.a) + WordBytes(h.b) + WordBytes(h.c), WordBytes(h.d));
    HexBytesAppend(WordBytes(h.a) + WordBytes(h.b), WordBytes(h.c));
    HexBytesAppend(WordBytes(h.a), WordBytes(h.b));
  }

  /** Reads `h0..h3` back from a 32-digit line. */
  function ParseDigestLine(s: string): State
    requires |s| == 32
  {
    State(ParseWord(s[0..8]), ParseWord(s[8..16]), ParseWord(s[16..24]), ParseWord(s[24..32]))
  }

  /** One 8-digit group reads back as its word. */
  lemma ParseWordOfHexPadded(w: Word)
    ensures ParseWord(HexPadded(ToBe(w) as int, 8)) == w
  {
    assert Pow16(8) == 0x1_0000_0000;
    HexValueOfHexPadded(ToBe(w) as int, 8);
    ToBeToBe(w);
  }

  /** Four groups of 8 digits, concatenated, are cut apart again at every 8th digit. */
  lemma Groups(a: string, b: string, c: string, d: string)
    requires |a| == 8 && |b| == 8 && |c| == 8 && |d| == 8
    ensures (a + b + c + d)[0..8] == a && (a + b + c + d)[8..16] == b
    ensures (a + b + c + d)[16..24] == c && (a + b + c + d)[24..32] == d
  {
  }

  /** The corrected line loses nothing: it reads back as `h0..h3`. */
  lemma ParseDigestLineOfDigestLine(h: State)
    ensures ParseDigestLine(DigestLine(h)) == h
  {
    Groups(HexPadded(ToBe(h.a) as int, 8), HexPadded(ToBe(h.b) as int, 8),
           HexPadded(ToBe(h.c) as int, 8), HexPadded(ToBe(h.d) as int, 8));
    ParseWordOfHexPadded(h.a);
    ParseWordOfHexPadded(h.b);
    ParseWordOfHexPadded(h.c);
    ParseWordOfHexPadded(h.d);
  }
}
