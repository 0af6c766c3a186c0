/** The 64-round compression function of section 3.4 of RFC 1321: the working
    registers, the per-phase mixing function and word index, one round, the
    64 rounds of a block and the additive feedback into `h0..h3`. */
module Rounds {
  import opened Words
  import opened Tables

  /** Four 32-bit registers: the working variables `a, b, c, d` during a block,
      or the running digest `h0, h1, h2, h3` between blocks. */
  datatype State = State(a: Word, b: Word, c: Word, d: Word)

  /** The running digest before the first block. */
  const Initial: State := State(H0, H1, H2, H3)

  /** The mixing function of phase 1 (RFC 1321's F): bit by bit, `c` where `b`
      is set and `d` elsewhere. */
  function F(b: Word, c: Word, d: Word): (f: Word)
    ensures f & b == c & b && f & !b == d & !b
  {
    (b & c) | (!b & d)
  }

  /** The mixing function of phase 2 (RFC 1321's G): bit by bit, `b` where `d`
      is set and `c` elsewhere. */
  function G(b: Word, c: Word, d: Word): (f: Word)
    ensures f & d == b & d && f & !d == c & !d
  {
    (d & b) | (!d & c)
  }

  /** The mixing function of phase 3 (RFC 1321's H): the bitwise parity. */
  function H(b: Word, c: Word, d: Word): Word {
    b ^ c ^ d
  }

  /** The mixing function of phase 4 (RFC 1321's I). */
  function I(b: Word, c: Word, d: Word): Word {
    c ^ (b | !d)
  }

  /** `f` of round `i`: the mixing function of its phase. */
  function Mix(i: nat, b: Word, c: Word, d: Word): Word
    requires i < 64
  {
    if i < 16 then F(b, c, d)
    else if i < 32 then G(b, c, d)
    else if i < 48 then H(b, c, d)
    else I(b, c, d)
  }

  /** `g` of round `i`: the index of the block word the round adds in. */
  function WordIndex(i: nat): (g: nat)
    requires i < 64
    ensures g < 16
    ensures i < 16 ==> g == i
  {
    if i < 16 then i
    else if i < 32 then (5 * i + 1) % 16
    else if i < 48 then (3 * i + 5) % 16
    else (7 * i) % 16
  }

  /** The round of phase `p` that adds in word `g` (5, 3 and 7 have the inverses
      13, 11 and 7 modulo 16). */
  function RoundOfWord(p: nat, g: nat): (i: nat)
    requires p < 4 && g < 16
    ensures 16 * p <= i < 16 * p + 16
  {
    if p == 0 then g
    else if p == 1 then 16 + (13 * (g + 15)) % 16
    else if p == 2 then 32 + (11 * (g + 11)) % 16
    else 48 + (7 * g) % 16
  }

  /** Adding a multiple of 16 does not change a residue modulo 16. */
  lemma ModOfMultiple(r: int, k: int)
    requires 0 <= r < 16
    ensures (r + 16 * k) % 16 == r
  {
  }

  // The index maps of phases 2, 3 and 4 and their inverses: composed, each is
  // `j` plus a multiple of 16, since 5 * 13, 3 * 11 and 7 * 7 are 1 modulo 16.

  /** Phase 2 reads word `(5 i + 1) % 16`; `RoundOfWord` undoes it. */
  lemma ResiduesOfPhase2(j: nat)
    requires j < 16
    ensures (13 * ((5 * (16 + j) + 1) % 16 + 15)) % 16 == j
  {
    var q := (5 * (16 + j) + 1) / 16;
    assert 13 * ((5 * (16 + j) + 1) % 16 + 15) == j + 16 * (78 + 4 * j - 13 * q);
    ModOfMultiple(j, 78 + 4 * j - 13 * q);
  }

  /** ... and `RoundOfWord` of phase 2 lands on the round reading that word. */
  lemma ResiduesOfPhase2Inverse(j: nat)
    requires j < 16
    ensures (5 * (16 + (13 * (j + 15)) % 16) + 1) % 16 == j
  {
    var q := (13 * (j + 15)) / 16;
    assert 5 * (16 + (13 * (j + 15)) % 16) + 1 == j + 16 * (66 + 4 * j - 5 * q);
    ModOfMultiple(j, 66 + 4 * j - 5 * q);
  }

  /** Phase 3 reads word `(3 i + 5) % 16`; `RoundOfWord` undoes it. */
  lemma ResiduesOfPhase3(j: nat)
    requires j < 16
    ensures (11 * ((3 * (32 + j) + 5) % 16 + 11)) % 16 == j
  {
    var q := (3 * (32 + j) + 5) / 16;
    assert 11 * ((3 * (32 + j) + 5) % 16 + 11) == j + 16 * (77 + 2 * j - 11 * q);
    ModOfMultiple(j, 77 + 2 * j - 11 * q);
  }

  /** ... and `RoundOfWord` of phase 3 lands on the round reading that word. */
  lemma ResiduesOfPhase3Inverse(j: nat)
    requires j < 16
    ensures (3 * (32 + (11 * (j + 11)) % 16) + 5) % 16 == j
  {
    var q := (11 * (j + 11)) / 16;
    assert 3 * (32 + (11 * (j + 11)) % 16) + 5 == j + 16 * (29 + 2 * j - 3 * q);
    ModOfMultiple(j, 29 + 2 * j - 3 * q);
  }

  /** Phase 4 reads word `(7 i) % 16`; `RoundOfWord` undoes it. */
  lemma ResiduesOfPhase4(j: nat)
    requires j < 16
    ensures (7 * ((7 * (48 + j)) % 16)) % 16 == j
  {
    var q := (7 * (48 + j)) / 16;
    assert 7 * ((7 * (48 + j)) % 16) == j + 16 * (147 + 3 * j - 7 * q);
    ModOfMultiple(j, 147 + 3 * j - 7 * q);
  }

  /** ... and `RoundOfWord` of phase 4 lands on the round reading that word. */
  lemma ResiduesOfPhase4Inverse(j: nat)
    requires j < 16
    ensures (7 * (48 + (7 * j) % 16)) % 16 == j
  {
    var q := (7 * j) / 16;
    assert 7 * (48 + (7 * j) % 16) == j + 16 * (21 + 3 * j - 7 * q);
    ModOfMultiple(j, 21 + 3 * j - 7 * q);
  }

  /** Within phase `p` the rounds `16 p .. 16 p + 15` add in the 16 words of the
      block in some order, each exactly once: `RoundOfWord` names the round that
      reads a given word ... */
  lemma {:induction false} RoundOfWordIndex(p: nat, j: nat)
    requires p < 4 && j < 16
    ensures RoundOfWord(p, WordIndex(16 * p + j)) == 16 * p + j
  {
    ResiduesOfPhase2(j);
    ResiduesOfPhase3(j);
    ResiduesOfPhase4(j);
  }

  /** ... and that round does read it. */
  lemma {:induction false} WordIndexOfRound(p: nat, g: nat)
    requires p < 4 && g < 16
    ensures WordIndex(RoundOfWord(p, g)) == g
  {
    ResiduesOfPhase2Inverse(g);
    ResiduesOfPhase3Inverse(g);
    ResiduesOfPhase4Inverse(g);
  }

  /** The new `b` of a round: `b + rotl(a + (f + (k + m)), r)`, every addition
      modulo 2^32 (`wrapping_add`) and `rotl` a 32-bit left rotation. */
  function Round(a: Word, b: Word, f: Word, k: Word, m: Word, r: Shift): Word {
    b + (a + (f + (k + m))).RotateLeft(r)
  }

  /** Recovers the `a` of a round from its new `b` (`t`) and the other inputs. */
  function Unround(t: Word, b: Word, f: Word, k: Word, m: Word, r: Shift): Word {
    (t - b).RotateRight(r) - (f + (k + m))
  }

  /** The identity behind `UnroundOfRound`, on the words themselves. */
  lemma UnroundOfRoundWords(a: Word, b: Word, f: Word, k: Word, m: Word, r: Shift)
    ensures ((b + (a + (f + (k + m))).RotateLeft(r)) - b).RotateRight(r) - (f + (k + m)) == a
  {
  }

  /** The identity behind `RoundOfUnround`, on the words themselves. */
  lemma RoundOfUnroundWords(t: Word, b: Word, f: Word, k: Word, m: Word, r: Shift)
    ensures b + ((t - b).RotateRight(r) - (f + (k + m)) + (f + (k + m))).RotateLeft(r) == t
  {
  }

  /** For fixed `b, f, k, m, r` the new `b` of a round determines `a`:
      `Unround` undoes `Round`. */
  lemma UnroundOfRound(a: Word, b: Word, f: Word, k: Word, m: Word, r: Shift)
    ensures Unround(Round(a, b, f, k, m, r), b, f, k, m, r) == a
  {
    assert Round(a, b, f, k, m, r) == b + (a + (f + (k + m))).RotateLeft(r);
    assert Unround(b + (a + (f + (k + m))).RotateLeft(r), b, f, k, m, r)
      == ((b + (a + (f + (k + m))).RotateLeft(r)) - b).RotateRight(r) - (f + (k + m));
    UnroundOfRoundWords(a, b, f, k, m, r);
  }

  /** Every word is the new `b` of some `a`: `Round` undoes `Unround`. */
  lemma RoundOfUnround(t: Word, b: Word, f: Word, k: Word, m: Word, r: Shift)
    ensures Round(Unround(t, b, f, k, m, r), b, f, k, m, r) == t
  {
    assert Unround(t, b, f, k, m, r) == (t - b).RotateRight(r) - (f + (k + m));
    assert Round((t - b).RotateRight(r) - (f + (k + m)), b, f, k, m, r)
      == b + ((t - b).RotateRight(r) - (f + (k + m)) + (f + (k + m))).RotateLeft(r);
    RoundOfUnroundWords(t, b, f, k, m, r);
  }

  /** Round `i` of block `x`: the registers rotate (`a := d, d := c, c := b`) and
      `b` takes the value of `Round` with the round's `f`, `k[i]`, `x[g]` and `r[i]`. */
  function Step(s: State, x: seq<Word>, i: nat): State
    requires |x| == 16 && i < 64
  {
    State(s.d, Round(s.a, s.b, Mix(i, s.b, s.c, s.d), K(i), x[WordIndex(i)], R(i)), s.b, s.c)
  }

  /** Undoes round `i`: the old `b, c, d` are the new `c, d, a`, and the old `a`
      comes back from the new `b` through `Unround`. */
  function Unstep(t: State, x: seq<Word>, i: nat): State
    requires |x| == 16 && i < 64
  {
    State(Unround(t.b, t.c, Mix(i, t.c, t.d, t.a), K(i), x[WordIndex(i)], R(i)), t.c, t.d, t.a)
  }

  /** A round loses nothing: `Unstep` recovers the registers before round `i`. */
  lemma UnstepOfStep(s: State, x: seq<Word>, i: nat)
    requires |x| == 16 && i < 64
    ensures Unstep(Step(s, x, i), x, i) == s
  {
    UnroundOfRound(s.a, s.b, Mix(i, s.b, s.c, s.d), K(i), x[WordIndex(i)], R(i));
  }

  /** Every register state is reached by round `i`: from `Unstep(t)` the round
      leads to `t`. */
  lemma StepOfUnstep(t: State, x: seq<Word>, i: nat)
    requires |x| == 16 && i < 64
    ensures Step(Unstep(t, x, i), x, i) == t
  {
    RoundOfUnround(t.b, t.c, Mix(i, t.c, t.d, t.a), K(i), x[WordIndex(i)], R(i));
  }

  /** The registers after the first `n` rounds of block `x`, starting from `s`. */
  function Run(s: State, x: seq<Word>, n: nat): State
    requires |x| == 16 && n <= 64
  {
    if n == 0 then s else Step(Run(s, x, n - 1), x, n - 1)
  }

  /** Undoes the first `n` rounds, last round first. */
  function Unrun(t: State, x: seq<Word>, n: nat): State
    requires |x| == 16 && n <= 64
    decreases n
  {
    if n == 0 then t else Unrun(Unstep(t, x, n - 1), x, n - 1)
  }

  /** The first `n` rounds lose nothing: `Unrun` recovers the starting registers. */
  lemma {:induction false} UnrunOfRun(s: State, x: seq<Word>, n: nat)
    requires |x| == 16 && n <= 64
    ensures Unrun(Run(s, x, n), x, n) == s
  {
    if n > 0 {
      assert Run(s, x, n) == Step(Run(s, x, n - 1), x, n - 1);
      UnstepOfStep(Run(s, x, n - 1), x, n - 1);
      assert Unrun(Run(s, x, n), x, n) == Unrun(Unstep(Run(s, x, n), x, n - 1), x, n - 1);
      UnrunOfRun(s, x, n - 1);
    }
  }

  /** Every register state is reached by the first `n` rounds: from `Unrun(t)`
      they lead to `t`. */
  lemma {:induction false} RunOfUnrun(t: State, x: seq<Word>, n: nat)
    requires |x| == 16 && n <= 64
    ensures Run(Unrun(t, x, n), x, n) == t
    decreases n
  {
    if n > 0 {
      RunOfUnrun(Unstep(t, x, n - 1), x, n - 1);
      assert Run(Unrun(t, x, n), x, n - 1) == Unstep(t, x, n - 1);
      StepOfUnstep(t, x, n - 1);
      assert Run(Unrun(t, x, n), x, n) == Step(Unstep(t, x, n - 1), x, n - 1);
    }
  }

  /** The register-wise sum modulo 2^32 (`wrapping_add` on each register). */
  function Add(h: State, s: State): State {
    State(WrappingAdd(h.a, s.a), WrappingAdd(h.b, s.b), WrappingAdd(h.c, s.c), WrappingAdd(h.d, s.d))
  }

  /** One block: 64 rounds from the running digest `h`, then each of `h0..h3` is
      increased by the matching register. */
  function Compress(h: State, x: seq<Word>): State
    requires |x| == 16
  {
    Add(h, Run(h, x, RoundCount))
  }
}
