/** The fixed tables of the compression function (section 3.4 of RFC 1321) and
    the initial buffer (section 3.3), as lookups by round number. */
module Tables {
  import opened Words

  /** The number of rounds applied to each block. */
  const RoundCount: nat := 64

  /** A left-rotation amount for a 32-bit word. */
  type Shift = n: nat | n < 32

  /** `r[i]`: the rotation amount of round `i`, four per phase repeated four times. */
  function R(i: nat): Shift
    requires i < 64
  {
    match i
    case 0 => 7 case 1 => 12 case 2 => 17 case 3 => 22 case 4 => 7 case 5 => 12 case 6 => 17 case 7 => 22
    case 8 => 7 case 9 => 12 case 10 => 17 case 11 => 22 case 12 => 7 case 13 => 12 case 14 => 17 case 15 => 22
    case 16 => 5 case 17 => 9 case 18 => 14 case 19 => 20 case 20 => 5 case 21 => 9 case 22 => 14 case 23 => 20
    case 24 => 5 case 25 => 9 case 26 => 14 case 27 => 20 case 28 => 5 case 29 => 9 case 30 => 14 case 31 => 20
    case 32 => 4 case 33 => 11 case 34 => 16 case 35 => 23 case 36 => 4 case 37 => 11 case 38 => 16 case 39 => 23
    case 40 => 4 case 41 => 11 case 42 => 16 case 43 => 23 case 44 => 4 case 45 => 11 case 46 => 16 case 47 => 23
    case 48 => 6 case 49 => 10 case 50 => 15 case 51 => 21 case 52 => 6 case 53 => 10 case 54 => 15 case 55 => 21
    case 56 => 6 case 57 => 10 case 58 => 15 case 59 => 21 case 60 => 6 case 61 => 10 case 62 => 15 case 63 => 21
    case _ => 0
  }

  /** The rotation amounts of section 3.4 of RFC 1321 by phase: S11..S14 for
      phase 0, S21..S24 for phase 1, S31..S34 for phase 2 and S41..S44 for phase 3. */
  function PhaseShift(p: nat, j: nat): Shift
    requires p < 4 && j < 4
  {
    if p == 0 then [7, 12, 17, 22][j]
    else if p == 1 then [5, 9, 14, 20][j]
    else if p == 2 then [4, 11, 16, 23][j]
    else [6, 10, 15, 21][j]
  }

  /** The literal table cycles through its phase's four rotation amounts. */
  lemma RSchedule(i: nat)
    requires i < 64
    ensures R(i) == PhaseShift(i / 16, i % 4)
  {
  }

  /** `k[i]`: the additive constant of round `i`, taken literally (RFC 1321
      derives them from the sine function). */
  function K(i: nat): Word
    requires i < 64
  {
    match i
    case 0 => 0xd76aa478 case 1 => 0xe8c7b756 case 2 => 0x242070db case 3 => 0xc1bdceee
    case 4 => 0xf57c0faf case 5 => 0x4787c62a case 6 => 0xa8304613 case 7 => 0xfd469501
    case 8 => 0x698098d8 case 9 => 0x8b44f7af case 10 => 0xffff5bb1 case 11 => 0x895cd7be
    case 12 => 0x6b901122 case 13 => 0xfd987193 case 14 => 0xa679438e case 15 => 0x49b40821
    case 16 => 0xf61e2562 case 17 => 0xc040b340 case 18 => 0x265e5a51 case 19 => 0xe9b6c7aa
    case 20 => 0xd62f105d case 21 => 0x02441453 case 22 => 0xd8a1e681 case 23 => 0xe7d3fbc8
    case 24 => 0x21e1cde6 case 25 => 0xc33707d6 case 26 => 0xf4d50d87 case 27 => 0x455a14ed
    case 28 => 0xa9e3e905 case 29 => 0xfcefa3f8 case 30 => 0x676f02d9 case 31 => 0x8d2a4c8a
    case 32 => 0xfffa3942 case 33 => 0x8771f681 case 34 => 0x6d9d6122 case 35 => 0xfde5380c
    case 36 => 0xa4beea44 case 37 => 0x4bdecfa9 case 38 => 0xf6bb4b60 case 39 => 0xbebfbc70
    case 40 => 0x289b7ec6 case 41 => 0xeaa127fa case 42 => 0xd4ef3085 case 43 => 0x04881d05
    case 44 => 0xd9d4d039 case 45 => 0xe6db99e5 case 46 => 0x1fa27cf8 case 47 => 0xc4ac5665
    case 48 => 0xf4292244 case 49 => 0x432aff97 case 50 => 0xab9423a7 case 51 => 0xfc93a039
    case 52 => 0x655b59c3 case 53 => 0x8f0ccc92 case 54 => 0xffeff47d case 55 => 0x85845dd1
    case 56 => 0x6fa87e4f case 57 => 0xfe2ce6e0 case 58 => 0xa3014314 case 59 => 0x4e0811a1
    case 60 => 0xf7537e82 case 61 => 0xbd3af235 case 62 => 0x2ad7d2bb case 63 => 0xeb86d391
    case _ => 0
  }

  /** The initial values of `h0..h3`. */
  const H0: Word := 0x67452301
  const H1: Word := 0xefcdab89
  const H2: Word := 0x98badcfe
  const H3: Word := 0x10325476
}
