# MD5 digest engine of md5.rs

A Dafny model of the MD5 engine in `src/main.rs`. The model covers:

- `as_u32_le`, which reads four bytes as a little-endian word;
- `md5`, which does the following:
  - copies the message into a growing byte buffer;
  - pads it with 0x80, zero bytes and the 64-bit bit length (sections 3.1 and 3.2 of RFC 1321);
  - cuts the buffer into 64-byte blocks of 16 words;
  - runs the 64 rounds of section 3.4 of RFC 1321 on each block;
  - adds the registers back into `h0..h3` with `wrapping_add`;
  - prints the final `h0..h3` byte-swapped by `to_be()` in hexadecimal.

The modules follow the parts of the engine:

- `Words` holds bytes (`bv8`), words (`bv32`), `as_u32_le` and its inverse, and `wrapping_add`.
- `Tables` holds the literal `r` and `k` tables and `h0..h3`. The `r` table is checked against the per-phase rotation amounts of RFC 1321.
- `Padding` holds the padded buffer as a function and its layout.
- `Rounds` holds the mixing functions, the word index `g`, one round, the 64 rounds and the feedback.
  - One round and the 64 rounds have inverses, and lemmas prove that the inverses undo them in both directions.
  - The word index of each phase visits the 16 words of a block exactly once.
  - The mixing functions cannot be inverted; `F` and `G` are characterised bit by bit.
- `Digest` holds the whole digest as a specification: the block words, the block chain `HashBlocks`, and the 16 digest bytes.
- `Engine` is the imperative `md5`:
  - the padding loops over a growing buffer;
  - the `while offset < total_len - 1` block loop;
  - the 16-word `chunk` array filled in place;
  - the `for i in 0..64` round loop over the mutable registers;
  - the feedback.

  Each method is proved equal to the specification functions.
- `Render` holds the `to_be()` byte swap and hexadecimal rendering.
  - It includes the line as written (`{:x}`, unpadded) and the zero-padded 32-digit line.
  - The zero-padded line is the 16 digest bytes in hexadecimal, and it reads back to `h0..h3`.

Section 3.5 of RFC 1321 makes the digest the bytes of A, B, C and D, low-order byte first. The test suite in its section A.5 writes each digest as 32 hexadecimal digits. The code prints each word without zero padding, so its line can be shorter. `Render.PrintedLine` follows the code, and the discrepancy is recorded under Findings. `Engine.Md5` returns the 16 digest bytes and the corrected 32-digit line.

## Model

| member | source | states |
|---|---|---|
| Words.AsU32Le | src/main.rs:8-13 | the shifted-byte sum equals the bitwise OR of the four shifted bytes, so it never carries |
| Words.AsU32LeValue | src/main.rs:8-13 | as an integer the word is `a[0] + 256 a[1] + 65536 a[2] + 16777216 a[3]`: the additions never overflow |
| Words.AsU32LeOfWordBytes | src/main.rs:8-13 | decoding the four little-endian bytes of any word gives the word back |
| Words.WordBytesOfAsU32Le | src/main.rs:8-13 | any four bytes are the bytes of the word they decode to, so `as_u32_le` is a bijection on 4-byte slices |
| Padding.BitLength | src/main.rs:55 | `initial_len * 8` as a 64-bit `usize`, wrapping modulo 2^64 (definition, no contract) |
| Padding.LeBytes | src/main.rs:56 | `to_le_bytes`: the 64-bit length as 8 bytes, least significant first |
| Padding.LeWord64OfLeBytes | src/main.rs:55-60 | the 8 little-endian length bytes decode back to `initial_len * 8` modulo 2^64 |
| Padding.LeBytesOfLeWord64 | src/main.rs:55-60 | any 8 bytes are the little-endian bytes of the value they denote |
| Tables.R | src/main.rs:17-21 | the literal `r` table, looked up by round (definition, no contract) |
| Tables.RSchedule | src/main.rs:17-21 | `r[i]` is the rotation amount of RFC 1321 for phase `i / 16` and position `i % 4` |
| Tables.K | src/main.rs:23-34 | the literal `k` table, looked up by round (definition, no contract) |
| Padding.ZeroFill | src/main.rs:49-54 | the fill has fewer than 64 zero bytes, leaves the length 8 short of a multiple of 64, and no shorter fill does |
| Padding.Pad | src/main.rs:48-60 | the padded length is a multiple of 64, at least the message length plus 9 and less than that plus 73 |
| Padding.PadLayout | src/main.rs:42-60 | the padded buffer is the message, then 0x80, then only zero bytes, and its last 8 bytes decode to the bit length |
| Padding.PadBoundary | src/main.rs:49-54 | a 55-byte message pads to one block with no zero byte; a 56-byte message pads to two blocks with 63 zero bytes |
| Rounds.F | src/main.rs:82 | bit by bit, phase 1's `f` takes `c` where `b` is set and `d` elsewhere |
| Rounds.G | src/main.rs:85 | bit by bit, phase 2's `f` takes `b` where `d` is set and `c` elsewhere |
| Rounds.H | src/main.rs:88 | phase 3's `f`, `b ^ c ^ d` (definition, no contract) |
| Rounds.I | src/main.rs:91 | phase 4's `f`: `c` xor (`b` or not `d`) (definition, no contract) |
| Rounds.Mix | src/main.rs:81-93 | `f` of round `i`: the mixing function of its phase (definition, no contract) |
| Rounds.WordIndex | src/main.rs:79-93 | `g` is in `[0, 16)` and is `i` in phase 1 |
| Rounds.RoundOfWord | src/main.rs:84-93 | the round of phase `p` that reads a given word lies in that phase |
| Rounds.RoundOfWordIndex | src/main.rs:84-93 | within each phase, `RoundOfWord` recovers the round from its `g`, so no two rounds of a phase read the same word |
| Rounds.WordIndexOfRound | src/main.rs:84-93 | within each phase, every word of the block is read by the round `RoundOfWord` names |
| Rounds.Round | src/main.rs:99-102 | the new `b`: `b + rotl(a + (f + (k[i] + chunk[g])), r[i])`, each addition `wrapping_add` (definition; its partner is `Unround`) |
| Rounds.Step | src/main.rs:96-103 | one round: `a, b, c, d := d, Round(...), b, c` (definition; its partner is `Unstep`) |
| Rounds.Run | src/main.rs:78-104 | the first `n` rounds of a block (definition; its partner is `Unrun`) |
| Rounds.Compress | src/main.rs:107-110 | one block: `h0..h3` each increased by the registers after 64 rounds, modulo 2^32 (definition; `Engine.CompressChunk` is proved equal to it) |
| Rounds.UnroundOfRound | src/main.rs:99-102 | the new `b` of a round determines the old `a` for fixed `b, f, k[i], chunk[g], r[i]` |
| Rounds.RoundOfUnround | src/main.rs:99-102 | every word is the new `b` of a round for some old `a` |
| Rounds.UnstepOfStep | src/main.rs:96-103 | one round (the rotation `a := d, d := c, c := b` and the new `b`) is undone by `Unstep` |
| Rounds.StepOfUnstep | src/main.rs:96-103 | every register state is the result of a round from some state |
| Rounds.UnrunOfRun | src/main.rs:78-104 | the first `n` rounds of a block are undone by `Unrun`: the round loop is injective |
| Rounds.RunOfUnrun | src/main.rs:78-104 | every register state is reached by the first `n` rounds from some state |
| Digest.BlockWords | src/main.rs:66-70 | the block at `offset` as 16 words, word `i` being `as_u32_le` of bytes `offset + 4i .. offset + 4i + 4` |
| Digest.BlockBytesOfWords | src/main.rs:66-70 | words read from consecutive 4-byte groups, written back least significant byte first, are those bytes |
| Digest.BlockWordsRoundTrip | src/main.rs:66-70 | the 16 chunk words of a block, written back out, are exactly its 64 bytes |
| Digest.HashBlocks | src/main.rs:62-113 | the running digest after `n` blocks, starting from `h0..h3` of src/main.rs:36-39 (definition; `Engine.HashPadded` is proved equal to it) |
| Digest.Emit | src/main.rs:116-122 | the final `h0..h3` as 16 bytes, each word least significant byte first |
| Digest.DigestStateOfEmit | src/main.rs:116-122 | the 16 digest bytes determine `h0..h3` |
| Digest.MessageDigest | src/main.rs:15-122 | the digest has 16 bytes and reads back as the final `h0..h3` of the message |
| Engine.CopyBytes | src/main.rs:42-45 | pushing the message bytes one by one onto an empty buffer yields the message |
| Engine.PushFill | src/main.rs:48-54 | the buffer after the push of 0x80 and the `lc` fill loop is the input, 0x80, and `ZeroFill` zero bytes |
| Engine.PushLength | src/main.rs:55-60 | the buffer after the length loop is the input followed by the 8 little-endian bytes of `initial_len * 8` |
| Engine.PadMessage | src/main.rs:42-60 | the buffer built by the three loops is `Pad` of the message |
| Engine.FillChunk | src/main.rs:66-70 | the new 16-word chunk array holds the block words at `offset` |
| Engine.OneRound | src/main.rs:78-103 | one pass of the round loop (the branch choosing `f` and `g`, the rotation and the new `b`) is `Step` |
| Engine.Rounds64 | src/main.rs:72-104 | the round loop from `h0..h3` ends with the registers `Run(h, chunk, 64)` |
| Engine.CompressChunk | src/main.rs:66-110 | one pass of the block loop yields `Compress` of the running digest and the block words |
| Engine.BlockGuard | src/main.rs:63-65 | the loop test `offset < total_len - 1` holds exactly while whole blocks remain |
| Engine.HashPadded | src/main.rs:63-113 | the block loop runs once per block, at offsets 0, 64, 128, ..., and ends with `HashBlocks` of all blocks |
| Engine.Md5 | src/main.rs:15-122 | `md5` returns the digest of the message and the 32-digit line of its final `h0..h3` |
| Render.HexNum | src/main.rs:116-122 | `{:x}` of a number: at least one hexadecimal digit, no leading zeros |
| Render.HexValueOfHexNum | src/main.rs:116-122 | `{:x}` of a number reads back as that number |
| Render.HexValueOfHexPadded | src/main.rs:116-122 | the zero-padded `k`-digit rendering reads back as the number when it is below 16^k |
| Render.HexNumLength | src/main.rs:116-122 | `{:x}` prints at most `k` digits exactly when the number is below 16^k |
| Render.ToBe | src/main.rs:116-122 | on a little-endian host `to_be()` reverses the four bytes of the word |
| Render.ToBeToBe | src/main.rs:116-122 | `to_be()` applied twice gives the word back |
| Render.ToBeValue | src/main.rs:116-122 | the value of `to_be()` of a word is its bytes read most significant first |
| Render.PrintedLine | src/main.rs:116-122 | the line as written: `{:x}` of `to_be()` of `h0`, `h1`, `h2`, `h3`, unpadded (definition; the lemmas below state its length) |
| Render.WordDigits | src/main.rs:116-122 | each word prints at most 8 digits |
| Render.PrintedLineLength | src/main.rs:116-122 | the line as written has between 4 and 32 digits |
| Render.SmallLeadingByte | src/main.rs:116-122 | a word whose low byte is below 0x10 prints at most 7 digits after `to_be()` |
| Render.ShortPrintedLine | src/main.rs:116-122 | when the first digest byte is below 0x10, the line as written has fewer than 32 digits |
| Render.ShortLineOfMessage | src/main.rs:116-122 | for every message whose digest starts with a byte below 0x10, the line as written is shorter than the 32-digit line |
| Render.ShortLineOfA | src/main.rs:116-122 | for the words 0xb975c10c, 0xa8b6f1c0, 0xe299c331, 0x61267769, the line as written has fewer than 32 digits; these words are the digest of "a" from section A.5 of RFC 1321 read back little-endian |
| Render.DigestLine | src/main.rs:116-122 | the zero-padded line has exactly 32 digits |
| Render.HexPaddedOfWord | src/main.rs:116-122 | `{:08x}` of `to_be()` of a word is its 4 bytes in hexadecimal, least significant byte first |
| Render.DigestLineOfEmit | src/main.rs:116-122 | the zero-padded line is the 16 digest bytes in hexadecimal, two digits per byte |
| Render.ParseWordOfHexPadded | src/main.rs:116-122 | each 8-digit group reads back as its word |
| Render.ParseDigestLineOfDigestLine | src/main.rs:116-122 | the 32-digit line reads back as `h0..h3`, so it loses nothing |

## Left out

- `main` (src/main.rs:125-152) is not modelled: argument handling, file reading, and the help and error messages are I/O.
- The conversion of the `&str` argument to its bytes is not modelled. The message is a byte sequence.
- `println!` writing to standard output is not modelled. The line is returned as a string instead.
- Engine.Md5: it returns the corrected zero-padded line, not the unpadded line the source prints. The line as written is `Render.PrintedLine`; see Findings.
- Render.ShortLineOfA: the four words are the digest of "a" from section A.5 of RFC 1321, read back into words. The model does not compute them from the message.
- Render.ToBe: assumes a little-endian host. On a big-endian host `to_be()` leaves the word unchanged.
- `usize` is taken to be 64 bits wide, so `to_le_bytes` yields 8 bytes.
- `initial_len * 8` wraps modulo 2^64, as in a release build. A debug build would panic on overflow instead, for messages of 2^61 bytes or more.
- The derivation of the `k` table from the sine function is not modelled (floating point). The literal table is taken as given.
- The test vectors of section A.5 of RFC 1321 are not proved. Evaluating 64 rounds on literal words symbolically is beyond the solver budget. The model proves the structure of the computation instead.

## Findings

| source | as written | input that shows it | evidently intended | confidence | as-written member | corrected member |
|---|---|---|---|---|---|---|
| src/main.rs:116-122 | `{:x}{:x}{:x}{:x}` prints each `to_be()` word without leading zeros | the message "a", with digest 0cc175b9c0f1b6a831c399e269772661, prints the 31 digits cc175b9c0f1b6a831c399e269772661; so does every message whose first digest byte is below 0x10 | `{:08x}` for each word, so that the line is the 16 digest bytes of section 3.5 of RFC 1321 in hexadecimal, 32 digits | not executed | Render.ShortLineOfA | Render.DigestLine |
