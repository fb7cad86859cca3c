/** The MD5 message digest of RFC 1321, section by section. */
module Rfc1321 {
  import opened Bits

  datatype Registers = Registers(a: Word, b: Word, c: Word, d: Word)

  // ----- section 3.1 and 3.2: padding and length

  function Zeros(n: nat): (z: seq<Byte>)
    ensures |z| == n && forall i | 0 <= i < n :: z[i] == 0
  {
    seq(n, _ => 0)
  }

  /** Zeros after the first padding byte, so that 8 bytes short of a multiple of 64 are reached. */
  function ZeroCount(n: nat): nat {
    (119 - n % 64) % 64
  }

  /** The byte with the weight 256^i. */
  function ByteOf(n: nat, i: nat): Byte {
    if i == 0 then (n % 256) as Byte else ByteOf(n / 256, i - 1)
  }

  /** The number of bits modulo 2^64, least significant byte first. */
  function LengthBytes(n: nat): (bytes: seq<Byte>)
    ensures |bytes| == 8
  {
    seq(8, i requires 0 <= i < 8 => ByteOf(8 * n % 0x1_0000_0000_0000_0000, i))
  }

  function Padded(message: seq<Byte>): seq<Byte> {
    message + [0x80] + Zeros(ZeroCount(|message|)) + LengthBytes(|message|)
  }

  // ----- section 3.3: the initial registers

  const INITIAL := Registers(0x6745_2301, 0xefcd_ab89, 0x98ba_dcfe, 0x1032_5476)

  // ----- section 3.4: the rounds

  function F(x: Word, y: Word, z: Word): Word {
    (x & y) | (!x & z)
  }

  function G(x: Word, y: Word, z: Word): Word {
    (x & z) | (y & !z)
  }

  function H(x: Word, y: Word, z: Word): Word {
    x ^ y ^ z
  }

  function I(x: Word, y: Word, z: Word): Word {
    y ^ (x | !z)
  }

  function Mix(round: nat, x: Word, y: Word, z: Word): Word {
    if round == 0 then F(x, y, z) else if round == 1 then G(x, y, z) else if round == 2 then H(x, y, z) else I(x, y, z)
  }

  /** Four entries of the table: entry i is the integer part of 4294967296 times abs(sin(i)), counted from 1. */
  function T(line: nat): (Word, Word, Word, Word)
    requires line < 16
  {
    match line
    case 0 => (0xd76a_a478, 0xe8c7_b756, 0x2420_70db, 0xc1bd_ceee)
    case 1 => (0xf57c_0faf, 0x4787_c62a, 0xa830_4613, 0xfd46_9501)
    case 2 => (0x6980_98d8, 0x8b44_f7af, 0xffff_5bb1, 0x895c_d7be)
    case 3 => (0x6b90_1122, 0xfd98_7193, 0xa679_438e, 0x49b4_0821)
    case 4 => (0xf61e_2562, 0xc040_b340, 0x265e_5a51, 0xe9b6_c7aa)
    case 5 => (0xd62f_105d, 0x0244_1453, 0xd8a1_e681, 0xe7d3_fbc8)
    case 6 => (0x21e1_cde6, 0xc337_07d6, 0xf4d5_0d87, 0x455a_14ed)
    case 7 => (0xa9e3_e905, 0xfcef_a3f8, 0x676f_02d9, 0x8d2a_4c8a)
    case 8 => (0xfffa_3942, 0x8771_f681, 0x6d9d_6122, 0xfde5_380c)
    case 9 => (0xa4be_ea44, 0x4bde_cfa9, 0xf6bb_4b60, 0xbebf_bc70)
    case 10 => (0x289b_7ec6, 0xeaa1_27fa, 0xd4ef_3085, 0x0488_1d05)
    case 11 => (0xd9d4_d039, 0xe6db_99e5, 0x1fa2_7cf8, 0xc4ac_5665)
    case 12 => (0xf429_2244, 0x432a_ff97, 0xab94_23a7, 0xfc93_a039)
    case 13 => (0x655b_59c3, 0x8f0c_cc92, 0xffef_f47d, 0x8584_5dd1)
    case 14 => (0x6fa8_7e4f, 0xfe2c_e6e0, 0xa301_4314, 0x4e08_11a1)
    case 15 => (0xf753_7e82, 0xbd3a_f235, 0x2ad7_d2bb, 0xeb86_d391)
  }

  /** Which words of the block the four operations of a line take. */
  function Indices(line: nat): (k: (nat, nat, nat, nat))
    requires line < 16
    ensures k.0 < 16 && k.1 < 16 && k.2 < 16 && k.3 < 16
  {
    match line
    case 0 => (0, 1, 2, 3)
    case 1 => (4, 5, 6, 7)
    case 2 => (8, 9, 10, 11)
    case 3 => (12, 13, 14, 15)
    case 4 => (1, 6, 11, 0)
    case 5 => (5, 10, 15, 4)
    case 6 => (9, 14, 3, 8)
    case 7 => (13, 2, 7, 12)
    case 8 => (5, 8, 11, 14)
    case 9 => (1, 4, 7, 10)
    case 10 => (13, 0, 3, 6)
    case 11 => (9, 12, 15, 2)
    case 12 => (0, 7, 14, 5)
    case 13 => (12, 3, 10, 1)
    case 14 => (8, 15, 6, 13)
    case 15 => (4, 11, 2, 9)
  }

  function Shifts(round: nat): (s: (nat, nat, nat, nat))
    ensures 0 < s.0 < 32 && 0 < s.1 < 32 && 0 < s.2 < 32 && 0 < s.3 < 32
  {
    if round == 0 then (7, 12, 17, 22)
    else if round == 1 then (5, 9, 14, 20)
    else if round == 2 then (4, 11, 16, 23)
    else (6, 10, 15, 21)
  }

  function Rotate(x: Word, s: nat): Word
    requires 0 < s < 32
  {
    (x << s) | (x >> (32 - s))
  }

  /** Addition modulo 2^32. */
  function Add(x: Word, y: Word): Word {
    x + y
  }

  /** a = b + ((a + Mix(b, c, d) + X[k] + T[i]) <<< s) */
  function Operation(round: nat, a: Word, b: Word, c: Word, d: Word, xk: Word, s: nat, t: Word): Word
    requires 0 < s < 32
  {
    Add(b, Rotate(Add(a, Add(Add(Mix(round, b, c, d), xk), t)), s))
  }

  /** Four operations: [ABCD], [DABC], [CDAB], [BCDA]. */
  function Line(s: Registers, x: seq<Word>, line: nat): Registers
    requires |x| == 16 && line < 16
  {
    var (round, k, n, t) := (line / 4, Indices(line), Shifts(line / 4), T(line));
    var a := Operation(round, s.a, s.b, s.c, s.d, x[k.0], n.0, t.0);
    var d := Operation(round, s.d, a, s.b, s.c, x[k.1], n.1, t.1);
    var c := Operation(round, s.c, d, a, s.b, x[k.2], n.2, t.2);
    var b := Operation(round, s.b, c, d, a, x[k.3], n.3, t.3);
    Registers(a, b, c, d)
  }

  function Lines(s: Registers, x: seq<Word>, n: nat): Registers
    requires |x| == 16 && n <= 16
  {
    if n == 0 then s else Line(Lines(s, x, n - 1), x, n - 1)
  }

  /** Four bytes as a word, least significant byte first. */
  function WordAt(block: seq<Byte>, i: nat): Word
    requires i + 3 < |block|
  {
    block[i] as Word | (block[i + 1] as Word << 8) | (block[i + 2] as Word << 16) | (block[i + 3] as Word << 24)
  }

  function Words(block: seq<Byte>): (x: seq<Word>)
    requires |block| == 64
    ensures |x| == 16
  {
    seq(16, k requires 0 <= k < 16 => WordAt(block, 4 * k))
  }

  function Plus(s: Registers, t: Registers): Registers {
    Registers(Add(s.a, t.a), Add(s.b, t.b), Add(s.c, t.c), Add(s.d, t.d))
  }

  function Block(s: Registers, block: seq<Byte>): Registers
    requires |block| == 64
  {
    Plus(s, Lines(s, Words(block), 16))
  }

  function Blocks(s: Registers, bytes: seq<Byte>): Registers
    decreases |bytes|
  {
    if |bytes| < 64 then s else Blocks(Block(s, bytes[..64]), bytes[64..])
  }

  // ----- section 3.5: the digest

  function WordBytes(w: Word): (bytes: seq<Byte>)
    ensures |bytes| == 4
  {
    [(w & 0xff) as Byte, ((w >> 8) & 0xff) as Byte, ((w >> 16) & 0xff) as Byte, ((w >> 24) & 0xff) as Byte]
  }

  function Output(s: Registers): (digest: seq<Byte>)
    ensures |digest| == 16
  {
    WordBytes(s.a) + WordBytes(s.b) + WordBytes(s.c) + WordBytes(s.d)
  }

  function Md5(message: seq<Byte>): (digest: seq<Byte>)
    ensures |digest| == 16
  {
    Output(Blocks(INITIAL, Padded(message)))
  }
}
