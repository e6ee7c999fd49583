/** The MD5 message digest as defined in RFC 1321. */
module Md5Model {

  import opened Bits

  type Byte = b: nat | b < 256
  type Word = w: nat | w < WORD_RANGE

  /** The four chaining words A, B, C and D. */
  datatype Regs = Regs(a: Word, b: Word, c: Word, d: Word)

  const WORD_RANGE: nat := 0x1_0000_0000
  const COUNT_RANGE: nat := 0x1_0000_0000_0000_0000

  // ----- section 3.4: the auxiliary functions and the step table

  function Not(x: Word): Word { WORD_RANGE - 1 - x }

  function Add(x: nat, y: nat): Word { (x + y) % WORD_RANGE }

  function F(x: Word, y: Word, z: Word): nat { Or(And(x, y), And(Not(x), z)) }

  function G(x: Word, y: Word, z: Word): nat { Or(And(x, z), And(y, Not(z))) }

  function H(x: Word, y: Word, z: Word): nat { Xor(Xor(x, y), z) }

  function I(x: Word, y: Word, z: Word): nat { Xor(y, Or(x, Not(z))) }

  function Mix(i: nat, x: Word, y: Word, z: Word): nat {
    if i < 16 then F(x, y, z)
    else if i < 32 then G(x, y, z)
    else if i < 48 then H(x, y, z)
    else I(x, y, z)
  }

  /** Which word of the block step i uses. */
  function Index(i: nat): (k: nat)
    ensures k < 16
  {
    if i < 16 then i
    else if i < 32 then (5 * i + 1) % 16
    else if i < 48 then (3 * i + 5) % 16
    else 7 * i % 16
  }

  /** How far step i rotates. */
  function Shift(i: nat): (s: nat)
    ensures 4 <= s <= 23
  {
    if i < 16 then (if i % 4 == 0 then 7 else if i % 4 == 1 then 12 else if i % 4 == 2 then 17 else 22)
    else if i < 32 then (if i % 4 == 0 then 5 else if i % 4 == 1 then 9 else if i % 4 == 2 then 14 else 20)
    else if i < 48 then (if i % 4 == 0 then 4 else if i % 4 == 1 then 11 else if i % 4 == 2 then 16 else 23)
    else if i % 4 == 0 then 6 else if i % 4 == 1 then 10 else if i % 4 == 2 then 15 else 21
  }

  /** Entry i + 1 of the sine table: the integer part of 4294967296 times abs(sin(i + 1)). */
  function Sine(i: nat): Word {
    if i < 16 then Sine1(i) else if i < 32 then Sine2(i - 16) else if i < 48 then Sine3(i - 32) else Sine4(i - 48)
  }

  function Sine1(i: int): Word {
    match i
    case 0 => 0xd76aa478
    case 1 => 0xe8c7b756
    case 2 => 0x242070db
    case 3 => 0xc1bdceee
    case 4 => 0xf57c0faf
    case 5 => 0x4787c62a
    case 6 => 0xa8304613
    case 7 => 0xfd469501
    case 8 => 0x698098d8
    case 9 => 0x8b44f7af
    case 10 => 0xffff5bb1
    case 11 => 0x895cd7be
    case 12 => 0x6b901122
    case 13 => 0xfd987193
    case 14 => 0xa679438e
    case _ => 0x49b40821
  }

  function Sine2(i: int): Word {
    match i
    case 0 => 0xf61e2562
    case 1 => 0xc040b340
    case 2 => 0x265e5a51
    case 3 => 0xe9b6c7aa
    case 4 => 0xd62f105d
    case 5 => 0x02441453
    case 6 => 0xd8a1e681
    case 7 => 0xe7d3fbc8
    case 8 => 0x21e1cde6
    case 9 => 0xc33707d6
    case 10 => 0xf4d50d87
    case 11 => 0x455a14ed
    case 12 => 0xa9e3e905
    case 13 => 0xfcefa3f8
    case 14 => 0x676f02d9
    case _ => 0x8d2a4c8a
  }

  function Sine3(i: int): Word {
    match i
    case 0 => 0xfffa3942
    case 1 => 0x8771f681
    case 2 => 0x6d9d6122
    case 3 => 0xfde5380c
    case 4 => 0xa4beea44
    case 5 => 0x4bdecfa9
    case 6 => 0xf6bb4b60
    case 7 => 0xbebfbc70
    case 8 => 0x289b7ec6
    case 9 => 0xeaa127fa
    case 10 => 0xd4ef3085
    case 11 => 0x04881d05
    case 12 => 0xd9d4d039
    case 13 => 0xe6db99e5
    case 14 => 0x1fa27cf8
    case _ => 0xc4ac5665
  }

  function Sine4(i: int): Word {
    match i
    case 0 => 0xf4292244
    case 1 => 0x432aff97
    case 2 => 0xab9423a7
    case 3 => 0xfc93a039
    case 4 => 0x655b59c3
    case 5 => 0x8f0ccc92
    case 6 => 0xffeff47d
    case 7 => 0x85845dd1
    case 8 => 0x6fa87e4f
    case 9 => 0xfe2ce6e0
    case 10 => 0xa3014314
    case 11 => 0x4e0811a1
    case 12 => 0xf7537e82
    case 13 => 0xbd3af235
    case 14 => 0x2ad7d2bb
    case _ => 0xeb86d391
  }

  /** x rotated left by s bit positions. */
  function RotLeft(x: Word, s: nat): nat
    requires s <= 32
  {
    Or(Shl(x, s) % WORD_RANGE, Shr(x, 32 - s))
  }

  function Sum(a: Word, f: nat, x: Word, t: Word): Word { (a + f + x + t) % WORD_RANGE }

  /** What step i puts into the register whose turn it is. */
  function NewRegister(i: nat, a: Word, b: Word, c: Word, d: Word, x: Word): Word {
    Add(b, RotLeft(Sum(a, Mix(i, b, c, d), x, Sine(i)), Shift(i)))
  }

  /** Step i of the 64: one register changes, and the four change places. */
  function Step(r: Regs, x: seq<Word>, i: nat): Regs
    requires |x| == 16 && i < 64
  {
    Regs(r.d, NewRegister(i, r.a, r.b, r.c, r.d, x[Index(i)]), r.b, r.c)
  }

  function Steps(r: Regs, x: seq<Word>, n: nat): Regs
    requires |x| == 16 && n <= 64
  {
    if n == 0 then r else Step(Steps(r, x, n - 1), x, n - 1)
  }

  // ----- words and bytes, low-order byte first

  function WordOf(b: seq<Byte>): Word
    requires |b| == 4
  {
    b[0] + 0x100 * (b[1] as int) + 0x1_0000 * (b[2] as int) + 0x100_0000 * (b[3] as int)
  }

  function WordsOf(block: seq<Byte>): (x: seq<Word>)
    requires |block| == 64
    ensures |x| == 16
  {
    seq(16, i requires 0 <= i < 16 => WordOf(block[4 * i..4 * i + 4]))
  }

  /** Byte i of a number. */
  function ByteOf(n: nat, i: nat): Byte {
    Shr(n, 8 * i) % 256
  }

  /** One 64-byte block folded into the chaining words. */
  function Block(r: Regs, block: seq<Byte>): Regs
    requires |block| == 64
  {
    var s := Steps(r, WordsOf(block), 64);
    Regs(Add(r.a, s.a), Add(r.b, s.b), Add(r.c, s.c), Add(r.d, s.d))
  }

  const INITIAL := Regs(0x67452301, 0xefcdab89, 0x98badcfe, 0x10325476)

  /** The chaining words after a whole number of blocks. */
  function Chain(m: seq<Byte>): Regs
    requires |m| % 64 == 0
  {
    if m == [] then INITIAL else Block(Chain(m[..|m| - 64]), m[|m| - 64..])
  }

  // ----- sections 3.1 and 3.2: padding and length

  function Zeros(n: nat): (z: seq<Byte>)
    ensures |z| == n
  {
    seq(n, _ => 0)
  }

  /** The low-order 64 bits of the length in bits, as eight bytes. */
  function LengthBytes(n: nat): (b: seq<Byte>)
    ensures |b| == 8
  {
    seq(8, i requires 0 <= i < 8 => ByteOf(8 * n % COUNT_RANGE, i))
  }

  /** How many zero bytes follow the byte 0x80. */
  function PadZeros(n: nat): nat {
    (55 - n) % 64
  }

  function Padded(m: seq<Byte>): (p: seq<Byte>)
    ensures |p| % 64 == 0
  {
    m + ([0x80] + Zeros(PadZeros(|m|))) + LengthBytes(|m|)
  }

  /** The padding is the shortest one that leaves room for exactly the length in the last block. */
  lemma PaddingIsShortest(n: nat, z: nat)
    ensures (n + 1 + PadZeros(n)) % 64 == 56
    ensures (n + 1 + z) % 64 == 56 ==> PadZeros(n) <= z
  {
  }

  // ----- section 3.5: output

  function Output(r: Regs): (d: seq<Byte>)
    ensures |d| == 16
  {
    [ByteOf(r.a, 0), ByteOf(r.a, 1), ByteOf(r.a, 2), ByteOf(r.a, 3),
     ByteOf(r.b, 0), ByteOf(r.b, 1), ByteOf(r.b, 2), ByteOf(r.b, 3),
     ByteOf(r.c, 0), ByteOf(r.c, 1), ByteOf(r.c, 2), ByteOf(r.c, 3),
     ByteOf(r.d, 0), ByteOf(r.d, 1), ByteOf(r.d, 2), ByteOf(r.d, 3)]
  }

  function Digest(m: seq<Byte>): (d: seq<Byte>)
    ensures |d| == 16
  {
    Output(Chain(Padded(m)))
  }
}
