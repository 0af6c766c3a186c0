/** `md5` of src/main.rs step by step: the message copied into a growing byte
    buffer, the padding pushed onto it, then the block loop with its 16-word
    chunk, its 64 rounds and the feedback into `h0..h3`. */
module Engine {
  import opened Words
  import opened Padding
  import opened Tables
  import opened Rounds
  import opened Digest
  import opened Render

  /** The message bytes pushed one by one onto an empty buffer. */
  method CopyBytes(message: seq<Byte>) returns (msg: seq<Byte>)
    ensures msg == message
  {
    msg := [];
    for j := 0 to |message|
      invariant msg == message[..j]
    {
      msg := msg + [message[j]];
    }
  }

  /** The 0x80 byte and the zero bytes pushed after the message: the fill loop
      pushes zeros while `(lc + 8) % 64 != 0`. */
  method PushFill(buf: seq<Byte>) returns (msg: seq<Byte>)
    ensures msg == buf + [0x80] + Zeros(ZeroFill(|buf|))
  {
    msg := buf + [0x80];
    var lc := |msg|;
    while (lc + 8) % 64 != 0
      invariant lc == |msg|
      invariant |buf| + 1 <= lc <= |buf| + 1 + ZeroFill(|buf|)
      invariant msg == buf + [0x80] + Zeros(lc - |buf| - 1)
      decreases |buf| + 1 + ZeroFill(|buf|) - lc
    {
      assert Zeros(lc - |buf|) == Zeros(lc - |buf| - 1) + [0];
      msg := msg + [0];
      lc := lc + 1;
    }
    assert Aligned(lc + 8);
  }

  /** The 8 little-endian bytes of `initial_len * 8` pushed one by one. */
  method PushLength(buf: seq<Byte>, initialLen: Usize) returns (msg: seq<Byte>)
    ensures msg == buf + LeBytes(BitLength(initialLen))
  {
    msg := buf;
    var bitlen := BitLength(initialLen);
    var lengthBytes := LeBytes(bitlen);
    for i := 0 to 8
      invariant msg == buf + lengthBytes[..i]
    {
      msg := msg + [lengthBytes[i]];
    }
    assert lengthBytes[..8] == lengthBytes;
  }

  /** The padding of `md5`: the message bytes, one 0x80 byte, zero bytes until the
      length is 8 short of a multiple of 64, then the 8 little-endian bytes of
      `initial_len * 8` as a 64-bit `usize`. */
  method PadMessage(message: seq<Byte>, initialLen: Usize) returns (msg: seq<Byte>)
    requires initialLen == |message|
    ensures msg == Pad(message)
  {
    msg := CopyBytes(message);
    msg := PushFill(msg);
    msg := PushLength(msg, initialLen);
  }

  /** The 16 words of the chunk at `offset`, filled one word at a time. */
  method FillChunk(msg: seq<Byte>, offset: nat) returns (chunk: array<Word>)
    requires offset + 64 <= |msg|
    ensures fresh(chunk)
    ensures chunk[..] == BlockWords(msg, offset)
  {
    chunk := new Word[16](_ => 0);
    for i := 0 to 16
      invariant forall m :: 0 <= m < i ==> chunk[m] == AsU32Le(msg[offset + m * 4..offset + m * 4 + 4])
    {
      chunk[i] := AsU32Le(msg[offset + i * 4..offset + i * 4 + 4]);
    }
  }

  /** One pass of the round loop: `f` and `g` chosen by the phase of round `i`,
      then the registers rotate and `b` takes the new word. */
  method OneRound(i: nat, a: Word, b: Word, c: Word, d: Word, chunk: array<Word>)
      returns (a': Word, b': Word, c': Word, d': Word)
    requires i < 64 && chunk.Length == 16
    ensures State(a', b', c', d') == Step(State(a, b, c, d), chunk[..], i)
  {
    var f: Word;
    var g: nat;
    if i < 16 {
      f := F(b, c, d);
      g := i;
    } else if i < 32 {
      f := G(b, c, d);
      g := (5 * i + 1) % 16;
    } else if i < 48 {
      f := H(b, c, d);
      g := (3 * i + 5) % 16;
    } else {
      f := I(b, c, d);
      g := (7 * i) % 16;
    }
    assert f == Mix(i, b, c, d) && g == WordIndex(i);
    assert chunk[g] == chunk[..][WordIndex(i)];
    var temp := d;
    d' := c;
    c' := b;
    b' := Round(a, b, f, K(i), chunk[g], R(i));
    a' := temp;
  }

  /** The 64 rounds on one chunk, from the running digest `h`. */
  method Rounds64(h: State, chunk: array<Word>) returns (t: State)
    requires chunk.Length == 16
    ensures t == Run(h, chunk[..], RoundCount)
  {
    var a, b, c, d := h.a, h.b, h.c, h.d;
    for i := 0 to 64
      invariant State(a, b, c, d) == Run(h, chunk[..], i)
    {
      a, b, c, d := OneRound(i, a, b, c, d, chunk);
    }
    t := State(a, b, c, d);
  }

  /** One pass of the block loop: the chunk at `offset` filled, the 64 rounds
      run from `h`, and each register added back into `h` with `wrapping_add`. */
  method CompressChunk(msg: seq<Byte>, offset: nat, h: State) returns (next: State)
    requires offset + 64 <= |msg|
    ensures next == Compress(h, BlockWords(msg, offset))
  {
    var chunk := FillChunk(msg, offset);
    var t := Rounds64(h, chunk);
    next := State(WrappingAdd(h.a, t.a), WrappingAdd(h.b, t.b), WrappingAdd(h.c, t.c), WrappingAdd(h.d, t.d));
  }

  /** The loop test `offset < total_len - 1`, with `offset = 64 * blocks` and
      `total_len = 64 * count`, holds exactly while blocks remain. */
  lemma BlockGuard(blocks: nat, count: nat)
    requires blocks <= count
    ensures 64 * blocks < 64 * count - 1 <==> blocks < count
  {
  }

  /** The block loop over the padded buffer `msg` of `count` blocks: each
      64-byte chunk in turn compressed into the running digest. */
  method HashPadded(msg: seq<Byte>, ghost count: nat) returns (h: State)
    requires |msg| == 64 * count
    ensures h == HashBlocks(msg, count)
  {
    h := State(H0, H1, H2, H3);
    var offset := 0;
    var totalLen := |msg|;
    ghost var blocks := 0;
    while offset < totalLen - 1
      invariant offset == 64 * blocks && blocks <= count
      invariant h == HashBlocks(msg, blocks)
      decreases totalLen - offset
    {
      BlockGuard(blocks, count);
      h := CompressChunk(msg, offset, h);
      offset := offset + 64;
      blocks := blocks + 1;
    }
    BlockGuard(blocks, count);
  }

  /** `md5(initial_msg, initial_len)`: the 16 bytes of the digest, and the line
      printed for it, with every word zero-padded to 8 digits. */
  method Md5(message: seq<Byte>, initialLen: Usize) returns (digest: seq<Byte>, line: string)
    requires initialLen == |message|
    ensures digest == MessageDigest(message)
    ensures line == DigestLine(MessageState(message))
  {
    var msg := PadMessage(message, initialLen);
    var h := HashPadded(msg, |msg| / 64);
    digest := Emit(h);
    line := DigestLine(h);
  }
}
