/** The digest as the program computes it: a state that is fed pieces of the message, a compression
    function written out step by step, and a final padding. */
module Md5 {
  import opened Bits
  import opened Md5Model

  const T_MASK: nat := 0xffff_ffff

  /** All ones, exclusive-or x. */
  function Masked(x: Word): (r: Word)
    ensures r == WORD_RANGE - 1 - x
  {
    Pow2Of32();
    XorOnes(x, 32);
    Xor(T_MASK, x)
  }

  lemma Pow2Of32()
    ensures Pow2(32) == WORD_RANGE
  {
    assert Pow2(10) == 1024;
    assert Pow2(20) == 1024 * 1024;
    assert Pow2(30) == 1024 * 1024 * 1024;
  }

  const T1: Word := Masked(0x28955b87)
  const T2: Word := Masked(0x173848a9)
  const T3: Word := 0x242070db
  const T4: Word := Masked(0x3e423111)
  const T5: Word := Masked(0x0a83f050)
  const T6: Word := 0x4787c62a
  const T7: Word := Masked(0x57cfb9ec)
  const T8: Word := Masked(0x02b96afe)
  const T9: Word := 0x698098d8
  const T10: Word := Masked(0x74bb0850)
  const T11: Word := Masked(0x0000a44e)
  const T12: Word := Masked(0x76a32841)
  const T13: Word := 0x6b901122
  const T14: Word := Masked(0x02678e6c)
  const T15: Word := Masked(0x5986bc71)
  const T16: Word := 0x49b40821
  const T17: Word := Masked(0x09e1da9d)
  const T18: Word := Masked(0x3fbf4cbf)
  const T19: Word := 0x265e5a51
  const T20: Word := Masked(0x16493855)
  const T21: Word := Masked(0x29d0efa2)
  const T22: Word := 0x02441453
  const T23: Word := Masked(0x275e197e)
  const T24: Word := Masked(0x182c0437)
  const T25: Word := 0x21e1cde6
  const T26: Word := Masked(0x3cc8f829)
  const T27: Word := Masked(0x0b2af278)
  const T28: Word := 0x455a14ed
  const T29: Word := Masked(0x561c16fa)
  const T30: Word := Masked(0x03105c07)
  const T31: Word := 0x676f02d9
  const T32: Word := Masked(0x72d5b375)
  const T33: Word := Masked(0x0005c6bd)
  const T34: Word := Masked(0x788e097e)
  const T35: Word := 0x6d9d6122
  const T36: Word := Masked(0x021ac7f3)
  const T37: Word := Masked(0x5b4115bb)
  const T38: Word := 0x4bdecfa9
  const T39: Word := Masked(0x0944b49f)
  const T40: Word := Masked(0x4140438f)
  const T41: Word := 0x289b7ec6
  const T42: Word := Masked(0x155ed805)
  const T43: Word := Masked(0x2b10cf7a)
  const T44: Word := 0x04881d05
  const T45: Word := Masked(0x262b2fc6)
  const T46: Word := Masked(0x1924661a)
  const T47: Word := 0x1fa27cf8
  const T48: Word := Masked(0x3b53a99a)
  const T49: Word := Masked(0x0bd6ddbb)
  const T50: Word := 0x432aff97
  const T51: Word := Masked(0x546bdc58)
  const T52: Word := Masked(0x036c5fc6)
  const T53: Word := 0x655b59c3
  const T54: Word := Masked(0x70f3336d)
  const T55: Word := Masked(0x00100b82)
  const T56: Word := Masked(0x7a7ba22e)
  const T57: Word := 0x6fa87e4f
  const T58: Word := Masked(0x01d3191f)
  const T59: Word := Masked(0x5cfebceb)
  const T60: Word := 0x4e0811a1
  const T61: Word := Masked(0x08ac817d)
  const T62: Word := Masked(0x42c50dca)
  const T63: Word := 0x2ad7d2bb
  const T64: Word := Masked(0x14792c6e)

  function SetF(a: Word, b: Word, c: Word, d: Word, x: Word, s: nat, t: Word): Word
    requires s <= 32
  {
    Add(RotLeft(Sum(a, F(b, c, d), x, t), s), b)
  }

  function SetG(a: Word, b: Word, c: Word, d: Word, x: Word, s: nat, t: Word): Word
    requires s <= 32
  {
    Add(RotLeft(Sum(a, G(b, c, d), x, t), s), b)
  }

  function SetH(a: Word, b: Word, c: Word, d: Word, x: Word, s: nat, t: Word): Word
    requires s <= 32
  {
    Add(RotLeft(Sum(a, H(b, c, d), x, t), s), b)
  }

  function SetI(a: Word, b: Word, c: Word, d: Word, x: Word, s: nat, t: Word): Word
    requires s <= 32
  {
    Add(RotLeft(Sum(a, I(b, c, d), x, t), s), b)
  }

  /** Four steps of round 1 in the program's order: registers keep their names and take turns. */
  lemma QuadF(r: Regs, x: seq<Word>, i: nat)
    requires |x| == 16 && 0 <= i < 16 && i % 4 == 0
    ensures var p := Steps(r, x, i);
      var a := SetF(p.a, p.b, p.c, p.d, x[Index(i)], Shift(i), Sine(i));
      var d := SetF(p.d, a, p.b, p.c, x[Index(i + 1)], Shift(i + 1), Sine(i + 1));
      var c := SetF(p.c, d, a, p.b, x[Index(i + 2)], Shift(i + 2), Sine(i + 2));
      var b := SetF(p.b, c, d, a, x[Index(i + 3)], Shift(i + 3), Sine(i + 3));
      Steps(r, x, i + 4) == Regs(a, b, c, d)
  {
    hide SetF, Steps, Step, Sine, Index, Shift;
    NextF(r, x, i);
    NextF(r, x, i + 1);
    NextF(r, x, i + 2);
    NextF(r, x, i + 3);
  }

  lemma NextF(r: Regs, x: seq<Word>, i: nat)
    requires |x| == 16 && 0 <= i < 16
    ensures var p := Steps(r, x, i);
      Steps(r, x, i + 1) == Regs(p.d, SetF(p.a, p.b, p.c, p.d, x[Index(i)], Shift(i), Sine(i)), p.b, p.c)
  {
    hide Index, Shift, Sine, NewRegister, SetF;
    var p := Steps(r, x, i);
    assert Steps(r, x, i + 1) == Step(p, x, i);
    SetFIsStep(i, p.a, p.b, p.c, p.d, x[Index(i)]);
  }

  lemma SetFIsStep(i: nat, a: Word, b: Word, c: Word, d: Word, x: Word)
    requires 0 <= i < 16
    ensures NewRegister(i, a, b, c, d, x) == SetF(a, b, c, d, x, Shift(i), Sine(i))
  {
  }

  /** Four steps of round 2 in the program's order: registers keep their names and take turns. */
  lemma QuadG(r: Regs, x: seq<Word>, i: nat)
    requires |x| == 16 && 16 <= i < 32 && i % 4 == 0
    ensures var p := Steps(r, x, i);
      var a := SetG(p.a, p.b, p.c, p.d, x[Index(i)], Shift(i), Sine(i));
      var d := SetG(p.d, a, p.b, p.c, x[Index(i + 1)], Shift(i + 1), Sine(i + 1));
      var c := SetG(p.c, d, a, p.b, x[Index(i + 2)], Shift(i + 2), Sine(i + 2));
      var b := SetG(p.b, c, d, a, x[Index(i + 3)], Shift(i + 3), Sine(i + 3));
      Steps(r, x, i + 4) == Regs(a, b, c, d)
  {
    hide SetG, Steps, Step, Sine, Index, Shift;
    NextG(r, x, i);
    NextG(r, x, i + 1);
    NextG(r, x, i + 2);
    NextG(r, x, i + 3);
  }

  lemma NextG(r: Regs, x: seq<Word>, i: nat)
    requires |x| == 16 && 16 <= i < 32
    ensures var p := Steps(r, x, i);
      Steps(r, x, i + 1) == Regs(p.d, SetG(p.a, p.b, p.c, p.d, x[Index(i)], Shift(i), Sine(i)), p.b, p.c)
  {
    hide Index, Shift, Sine, NewRegister, SetG;
    var p := Steps(r, x, i);
    assert Steps(r, x, i + 1) == Step(p, x, i);
    SetGIsStep(i, p.a, p.b, p.c, p.d, x[Index(i)]);
  }

  lemma SetGIsStep(i: nat, a: Word, b: Word, c: Word, d: Word, x: Word)
    requires 16 <= i < 32
    ensures NewRegister(i, a, b, c, d, x) == SetG(a, b, c, d, x, Shift(i), Sine(i))
  {
  }

  /** Four steps of round 3 in the program's order: registers keep their names and take turns. */
  lemma QuadH(r: Regs, x: seq<Word>, i: nat)
    requires |x| == 16 && 32 <= i < 48 && i % 4 == 0
    ensures var p := Steps(r, x, i);
      var a := SetH(p.a, p.b, p.c, p.d, x[Index(i)], Shift(i), Sine(i));
      var d := SetH(p.d, a, p.b, p.c, x[Index(i + 1)], Shift(i + 1), Sine(i + 1));
      var c := SetH(p.c, d, a, p.b, x[Index(i + 2)], Shift(i + 2), Sine(i + 2));
      var b := SetH(p.b, c, d, a, x[Index(i + 3)], Shift(i + 3), Sine(i + 3));
      Steps(r, x, i + 4) == Regs(a, b, c, d)
  {
    hide SetH, Steps, Step, Sine, Index, Shift;
    NextH(r, x, i);
    NextH(r, x, i + 1);
    NextH(r, x, i + 2);
    NextH(r, x, i + 3);
  }

  lemma NextH(r: Regs, x: seq<Word>, i: nat)
    requires |x| == 16 && 32 <= i < 48
    ensures var p := Steps(r, x, i);
      Steps(r, x, i + 1) == Regs(p.d, SetH(p.a, p.b, p.c, p.d, x[Index(i)], Shift(i), Sine(i)), p.b, p.c)
  {
    hide Index, Shift, Sine, NewRegister, SetH;
    var p := Steps(r, x, i);
    assert Steps(r, x, i + 1) == Step(p, x, i);
    SetHIsStep(i, p.a, p.b, p.c, p.d, x[Index(i)]);
  }

  lemma SetHIsStep(i: nat, a: Word, b: Word, c: Word, d: Word, x: Word)
    requires 32 <= i < 48
    ensures NewRegister(i, a, b, c, d, x) == SetH(a, b, c, d, x, Shift(i), Sine(i))
  {
  }

  /** Four steps of round 4 in the program's order: registers keep their names and take turns. */
  lemma QuadI(r: Regs, x: seq<Word>, i: nat)
    requires |x| == 16 && 48 <= i < 64 && i % 4 == 0
    ensures var p := Steps(r, x, i);
      var a := SetI(p.a, p.b, p.c, p.d, x[Index(i)], Shift(i), Sine(i));
      var d := SetI(p.d, a, p.b, p.c, x[Index(i + 1)], Shift(i + 1), Sine(i + 1));
      var c := SetI(p.c, d, a, p.b, x[Index(i + 2)], Shift(i + 2), Sine(i + 2));
      var b := SetI(p.b, c, d, a, x[Index(i + 3)], Shift(i + 3), Sine(i + 3));
      Steps(r, x, i + 4) == Regs(a, b, c, d)
  {
    hide SetI, Steps, Step, Sine, Index, Shift;
    NextI(r, x, i);
    NextI(r, x, i + 1);
    NextI(r, x, i + 2);
    NextI(r, x, i + 3);
  }

  lemma NextI(r: Regs, x: seq<Word>, i: nat)
    requires |x| == 16 && 48 <= i < 64
    ensures var p := Steps(r, x, i);
      Steps(r, x, i + 1) == Regs(p.d, SetI(p.a, p.b, p.c, p.d, x[Index(i)], Shift(i), Sine(i)), p.b, p.c)
  {
    hide Index, Shift, Sine, NewRegister, SetI;
    var p := Steps(r, x, i);
    assert Steps(r, x, i + 1) == Step(p, x, i);
    SetIIsStep(i, p.a, p.b, p.c, p.d, x[Index(i)]);
  }

  lemma SetIIsStep(i: nat, a: Word, b: Word, c: Word, d: Word, x: Word)
    requires 48 <= i < 64
    ensures NewRegister(i, a, b, c, d, x) == SetI(a, b, c, d, x, Shift(i), Sine(i))
  {
  }

  lemma ConstantsF()
    ensures T1 == Sine(0) && T2 == Sine(1) && T3 == Sine(2) && T4 == Sine(3)
    ensures T5 == Sine(4) && T6 == Sine(5) && T7 == Sine(6) && T8 == Sine(7)
    ensures T9 == Sine(8) && T10 == Sine(9) && T11 == Sine(10) && T12 == Sine(11)
    ensures T13 == Sine(12) && T14 == Sine(13) && T15 == Sine(14) && T16 == Sine(15)
  {
    hide Masked;
  }

  lemma ConstantsG()
    ensures T17 == Sine(16) && T18 == Sine(17) && T19 == Sine(18) && T20 == Sine(19)
    ensures T21 == Sine(20) && T22 == Sine(21) && T23 == Sine(22) && T24 == Sine(23)
    ensures T25 == Sine(24) && T26 == Sine(25) && T27 == Sine(26) && T28 == Sine(27)
    ensures T29 == Sine(28) && T30 == Sine(29) && T31 == Sine(30) && T32 == Sine(31)
  {
    hide Masked;
  }

  lemma ConstantsH()
    ensures T33 == Sine(32) && T34 == Sine(33) && T35 == Sine(34) && T36 == Sine(35)
    ensures T37 == Sine(36) && T38 == Sine(37) && T39 == Sine(38) && T40 == Sine(39)
    ensures T41 == Sine(40) && T42 == Sine(41) && T43 == Sine(42) && T44 == Sine(43)
    ensures T45 == Sine(44) && T46 == Sine(45) && T47 == Sine(46) && T48 == Sine(47)
  {
    hide Masked;
  }

  lemma ConstantsI()
    ensures T49 == Sine(48) && T50 == Sine(49) && T51 == Sine(50) && T52 == Sine(51)
    ensures T53 == Sine(52) && T54 == Sine(53) && T55 == Sine(54) && T56 == Sine(55)
    ensures T57 == Sine(56) && T58 == Sine(57) && T59 == Sine(58) && T60 == Sine(59)
    ensures T61 == Sine(60) && T62 == Sine(61) && T63 == Sine(62) && T64 == Sine(63)
  {
  }

  /** Round 1: steps 1 to 16. */
  method Round1(p: Regs, x: seq<Word>, ghost r: Regs) returns (q: Regs)
    requires |x| == 16 && p == Steps(r, x, 0)
    ensures q == Steps(r, x, 16)
  {
    ConstantsF();
    hide SetF, Steps, Sine, Masked;
    var a, b, c, d := p.a, p.b, p.c, p.d;
    a := SetF(a, b, c, d, x[0], 7, T1);
    d := SetF(d, a, b, c, x[1], 12, T2);
    c := SetF(c, d, a, b, x[2], 17, T3);
    b := SetF(b, c, d, a, x[3], 22, T4);
    QuadF(r, x, 0);
    a := SetF(a, b, c, d, x[4], 7, T5);
    d := SetF(d, a, b, c, x[5], 12, T6);
    c := SetF(c, d, a, b, x[6], 17, T7);
    b := SetF(b, c, d, a, x[7], 22, T8);
    QuadF(r, x, 4);
    a := SetF(a, b, c, d, x[8], 7, T9);
    d := SetF(d, a, b, c, x[9], 12, T10);
    c := SetF(c, d, a, b, x[10], 17, T11);
    b := SetF(b, c, d, a, x[11], 22, T12);
    QuadF(r, x, 8);
    a := SetF(a, b, c, d, x[12], 7, T13);
    d := SetF(d, a, b, c, x[13], 12, T14);
    c := SetF(c, d, a, b, x[14], 17, T15);
    b := SetF(b, c, d, a, x[15], 22, T16);
    QuadF(r, x, 12);
    q := Regs(a, b, c, d);
  }

  /** Round 2: steps 17 to 32. */
  method Round2(p: Regs, x: seq<Word>, ghost r: Regs) returns (q: Regs)
    requires |x| == 16 && p == Steps(r, x, 16)
    ensures q == Steps(r, x, 32)
  {
    ConstantsG();
    hide SetG, Steps, Sine, Masked;
    var a, b, c, d := p.a, p.b, p.c, p.d;
    a := SetG(a, b, c, d, x[1], 5, T17);
    d := SetG(d, a, b, c, x[6], 9, T18);
    c := SetG(c, d, a, b, x[11], 14, T19);
    b := SetG(b, c, d, a, x[0], 20, T20);
    QuadG(r, x, 16);
    a := SetG(a, b, c, d, x[5], 5, T21);
    d := SetG(d, a, b, c, x[10], 9, T22);
    c := SetG(c, d, a, b, x[15], 14, T23);
    b := SetG(b, c, d, a, x[4], 20, T24);
    QuadG(r, x, 20);
    a := SetG(a, b, c, d, x[9], 5, T25);
    d := SetG(d, a, b, c, x[14], 9, T26);
    c := SetG(c, d, a, b, x[3], 14, T27);
    b := SetG(b, c, d, a, x[8], 20, T28);
    QuadG(r, x, 24);
    a := SetG(a, b, c, d, x[13], 5, T29);
    d := SetG(d, a, b, c, x[2], 9, T30);
    c := SetG(c, d, a, b, x[7], 14, T31);
    b := SetG(b, c, d, a, x[12], 20, T32);
    QuadG(r, x, 28);
    q := Regs(a, b, c, d);
  }

  /** Round 3: steps 33 to 48. */
  method Round3(p: Regs, x: seq<Word>, ghost r: Regs) returns (q: Regs)
    requires |x| == 16 && p == Steps(r, x, 32)
    ensures q == Steps(r, x, 48)
  {
    ConstantsH();
    hide SetH, Steps, Sine, Masked;
    var a, b, c, d := p.a, p.b, p.c, p.d;
    a := SetH(a, b, c, d, x[5], 4, T33);
    d := SetH(d, a, b, c, x[8], 11, T34);
    c := SetH(c, d, a, b, x[11], 16, T35);
    b := SetH(b, c, d, a, x[14], 23, T36);
    QuadH(r, x, 32);
    a := SetH(a, b, c, d, x[1], 4, T37);
    d := SetH(d, a, b, c, x[4], 11, T38);
    c := SetH(c, d, a, b, x[7], 16, T39);
    b := SetH(b, c, d, a, x[10], 23, T40);
    QuadH(r, x, 36);
    a := SetH(a, b, c, d, x[13], 4, T41);
    d := SetH(d, a, b, c, x[0], 11, T42);
    c := SetH(c, d, a, b, x[3], 16, T43);
    b := SetH(b, c, d, a, x[6], 23, T44);
    QuadH(r, x, 40);
    a := SetH(a, b, c, d, x[9], 4, T45);
    d := SetH(d, a, b, c, x[12], 11, T46);
    c := SetH(c, d, a, b, x[15], 16, T47);
    b := SetH(b, c, d, a, x[2], 23, T48);
    QuadH(r, x, 44);
    q := Regs(a, b, c, d);
  }

  /** Round 4: steps 49 to 64. */
  method Round4(p: Regs, x: seq<Word>, ghost r: Regs) returns (q: Regs)
    requires |x| == 16 && p == Steps(r, x, 48)
    ensures q == Steps(r, x, 64)
  {
    ConstantsI();
    hide SetI, Steps, Sine, Masked;
    var a, b, c, d := p.a, p.b, p.c, p.d;
    a := SetI(a, b, c, d, x[0], 6, T49);
    d := SetI(d, a, b, c, x[7], 10, T50);
    c := SetI(c, d, a, b, x[14], 15, T51);
    b := SetI(b, c, d, a, x[5], 21, T52);
    QuadI(r, x, 48);
    a := SetI(a, b, c, d, x[12], 6, T53);
    d := SetI(d, a, b, c, x[3], 10, T54);
    c := SetI(c, d, a, b, x[10], 15, T55);
    b := SetI(b, c, d, a, x[1], 21, T56);
    QuadI(r, x, 52);
    a := SetI(a, b, c, d, x[8], 6, T57);
    d := SetI(d, a, b, c, x[15], 10, T58);
    c := SetI(c, d, a, b, x[6], 15, T59);
    b := SetI(b, c, d, a, x[13], 21, T60);
    QuadI(r, x, 56);
    a := SetI(a, b, c, d, x[4], 6, T61);
    d := SetI(d, a, b, c, x[11], 10, T62);
    c := SetI(c, d, a, b, x[2], 15, T63);
    b := SetI(b, c, d, a, x[9], 21, T64);
    QuadI(r, x, 60);
    q := Regs(a, b, c, d);
  }

  // ----- the message length, kept in two 32-bit words

  /** Two words hold the low 64 bits of the length in bits of n bytes. */
  ghost predicate Counts(low: nat, high: nat, n: nat) {
    low < WORD_RANGE && high < WORD_RANGE && low + WORD_RANGE * high == 8 * n % COUNT_RANGE
  }

  /** Bytes in the open block, from the low word of the bit count. */
  lemma OpenBytes(low: nat, high: nat, n: nat)
    requires Counts(low, high, n)
    ensures low / 8 % 64 == n % 64
  {
    var q := 8 * n / COUNT_RANGE;
    var k := n - 0x2000_0000 * high - 0x2000_0000_0000_0000 * q;
    assert low == 8 * k;
    RemainderIsUnique(n, 64, k / 64 + 0x80_0000 * high + 0x80_0000_0000_0000 * q, k % 64);
  }

  /** Adding 8 * k to a count held in two words, with the carry found by comparing. */
  lemma CountCarries(count0: nat, count1: nat, n: nat, k: nat)
    requires Counts(count0, count1, n) && k < 0x8000_0000
    ensures var bits := 8 * k % WORD_RANGE;
      var low := (count0 + bits) % WORD_RANGE;
      var high := (count1 + k / 0x2000_0000) % WORD_RANGE;
      Counts(low, if low < bits then (high + 1) % WORD_RANGE else high, n + k)
  {
    var bits, top := 8 * k % WORD_RANGE, k / 0x2000_0000;
    assert 8 * k == bits + WORD_RANGE * top;
    var low := (count0 + bits) % WORD_RANGE;
    var carry := if low < bits then 1 else 0;
    assert count0 + bits == low + WORD_RANGE * carry;
    var high := (count1 + top + carry) % WORD_RANGE;
    assert ((count1 + top) % WORD_RANGE + carry) % WORD_RANGE == high;
    var q := (count1 + top + carry) / WORD_RANGE;
    var p := 8 * n / COUNT_RANGE;
    assert 8 * (n + k) == low + WORD_RANGE * high + (p + q) * COUNT_RANGE;
    RemainderIsUnique(8 * (n + k), COUNT_RANGE, p + q, low + WORD_RANGE * high);
  }

  // ----- blocks and prefixes

  /** The part of the message that fills whole blocks. */
  function Full(m: seq<Byte>): (f: seq<Byte>)
    ensures |f| % 64 == 0 && |f| <= |m|
  {
    m[..|m| / 64 * 64]
  }

  lemma ChainSnoc(m: seq<Byte>, block: seq<Byte>)
    requires |m| % 64 == 0 && |block| == 64
    ensures Chain(m + block) == Block(Chain(m), block)
  {
  }

  /** The bytes after the whole blocks. */
  function Open(m: seq<Byte>): (o: seq<Byte>)
    ensures |o| == |m| % 64
  {
    m[|m| / 64 * 64..]
  }

  lemma StillOpen(m: seq<Byte>, piece: seq<Byte>)
    requires |m| % 64 + |piece| < 64
    ensures Full(m + piece) == Full(m) && Open(m + piece) == Open(m) + piece
  {
  }

  lemma Completed(m: seq<Byte>, piece: seq<Byte>)
    requires |m| % 64 + |piece| == 64
    ensures |m + piece| % 64 == 0
    ensures Chain(m + piece) == Block(Chain(Full(m)), Open(m) + piece)
  {
    hide Chain, Block;
    assert m == Full(m) + Open(m);
    assert m + piece == Full(m) + (Open(m) + piece);
    ChainSnoc(Full(m), Open(m) + piece);
  }

  class Md5State {
    var count0: nat
    var count1: nat
    const abcd: array<Word>
    const buf: array<Byte>

    /** Everything appended so far. */
    ghost var message: seq<Byte>

    ghost predicate Shape() {
      abcd.Length == 4 && buf.Length == 64
    }

    ghost function Registers(): Regs
      requires Shape()
      reads abcd
    {
      Regs(abcd[0], abcd[1], abcd[2], abcd[3])
    }

    /** The state stands for its message: the chaining words for its whole blocks, the buffer for the
        rest, the two counters for its length in bits. */
    ghost predicate Valid()
      reads this, abcd, buf
    {
      && Shape()
      && Counts(count0, count1, |message|)
      && Registers() == Chain(Full(message))
      && buf[..|message| % 64] == Open(message)
    }

    constructor ()
      ensures Shape() && fresh(abcd) && fresh(buf)
    {
      abcd := new Word[4](i => 0);
      buf := new Byte[64](i => 0);
      count0, count1 := 0, 0;
      message := [];
    }

    method Init()
      requires Shape()
      modifies this, abcd
      ensures Valid() && message == []
    {
      hide Masked, Block;
      count0, count1 := 0, 0;
      abcd[0] := 0x67452301;
      abcd[1] := Masked(0x10325476);
      abcd[2] := Masked(0x67452301);
      abcd[3] := 0x10325476;
      message := [];
    }

    /** The words of a block, assembled byte by byte. */
    method LoadWords(data: seq<Byte>) returns (x: seq<Word>)
      requires |data| == 64
      ensures x == WordsOf(data)
    {
      x := [];
      for i := 0 to 16
        invariant |x| == i
        invariant forall k :: 0 <= k < i ==> x[k] == WordsOf(data)[k]
      {
        var p := 4 * i;
        var b := data[p..p + 4];
        x := x + [b[0] + (b[1] as int) * 0x100 + (b[2] as int) * 0x1_0000 + (b[3] as int) * 0x100_0000];
      }
    }

    /** Folds one block into the chaining words. */
    method Process(data: seq<Byte>)
      requires Shape() && |data| == 64
      modifies abcd
      ensures Registers() == Block(old(Registers()), data)
    {
      ghost var start := Registers();
      var x := LoadWords(data);
      var r := Regs(abcd[0], abcd[1], abcd[2], abcd[3]);
      assert r == Steps(start, x, 0);
      hide Steps;
      r := Round1(r, x, start);
      r := Round2(r, x, start);
      r := Round3(r, x, start);
      r := Round4(r, x, start);
      abcd[0] := Add(abcd[0], r.a);
      abcd[1] := Add(abcd[1], r.b);
      abcd[2] := Add(abcd[2], r.c);
      abcd[3] := Add(abcd[3], r.d);
    }

    method AddToCount(nbytes: nat)
      requires Counts(count0, count1, |message|) && nbytes < 0x8000_0000
      modifies this`count0, this`count1
      ensures Counts(count0, count1, |message| + nbytes)
    {
      CountCarries(count0, count1, |message|, nbytes);
      hide Counts;
      var nbits := 8 * nbytes % WORD_RANGE;
      count1 := (count1 + nbytes / 0x2000_0000) % WORD_RANGE;
      count0 := (count0 + nbits) % WORD_RANGE;
      if count0 < nbits {
        count1 := (count1 + 1) % WORD_RANGE;
      }
    }

    method CopyToBuffer(offset: nat, p: seq<Byte>)
      requires Shape() && offset + |p| <= 64
      modifies buf
      ensures buf[..offset + |p|] == old(buf[..offset]) + p
    {
      for i := 0 to |p|
        invariant buf[..offset] == old(buf[..offset])
        invariant buf[offset..offset + i] == p[..i]
      {
        buf[offset + i] := p[i];
      }
      assert buf[..offset + |p|] == buf[..offset] + buf[offset..offset + |p|];
    }

    /** Appends a piece of the message.  Its length is a 32-bit signed number in the program. */
    method Append(data: seq<Byte>)
      requires Valid() && |message| % 64 + |data| < 0x8000_0000
      modifies this, abcd, buf
      ensures Valid() && message == old(message) + data
    {
      hide Chain, Block, Counts;
      var nbytes := |data|;
      OpenBytes(count0, count1, |message|);
      var offset := count0 / 8 % 64;
      if nbytes == 0 {
        assert message + data == message;
        return;
      }
      AddToCount(nbytes);
      var p := 0;
      ghost var m := message;
      message := message + data;
      if offset != 0 {
        p := FillOpenBlock(m, data, offset);
        if offset + nbytes < 64 {
          return;
        }
      } else {
        assert m + data[..0] == m;
        assert Full(m) == m;
      }
      AppendRest(m, data, p);
    }

    /** Tops up the open block, and folds it in when it is full. */
    method FillOpenBlock(ghost m: seq<Byte>, data: seq<Byte>, offset: nat) returns (p: nat)
      requires Shape() && 0 < offset == |m| % 64
      requires Registers() == Chain(Full(m)) && buf[..offset] == Open(m)
      modifies abcd, buf
      ensures p == if offset + |data| < 64 then |data| else 64 - offset
      ensures offset + |data| < 64 ==>
        Registers() == Chain(Full(m + data)) && buf[..|m + data| % 64] == Open(m + data)
      ensures offset + |data| >= 64 ==>
        |m + data[..p]| % 64 == 0 && Registers() == Chain(m + data[..p])
    {
      hide Chain, Block;
      p := if offset + |data| > 64 then 64 - offset else |data|;
      CopyToBuffer(offset, data[..p]);
      if offset + p < 64 {
        assert data[..p] == data;
        StillOpen(m, data);
        return;
      }
      Completed(m, data[..p]);
      assert buf[..] == buf[..offset + p];
      Process(buf[..]);
    }

    /** From a block boundary on: the full blocks, then the open one. */
    method AppendRest(ghost m: seq<Byte>, data: seq<Byte>, start: nat)
      requires Shape() && start <= |data|
      requires |m + data[..start]| % 64 == 0
      requires Registers() == Chain(m + data[..start])
      modifies abcd, buf
      ensures Registers() == Chain(Full(m + data))
      ensures buf[..|m + data| % 64] == Open(m + data)
    {
      hide Chain, Block;
      var p := ProcessBlocks(m, data, start);
      CopyToBuffer(0, data[p..]);
      assert m + data == (m + data[..p]) + data[p..];
      StillOpen(m + data[..p], data[p..]);
    }

    /** Full blocks straight from the input. */
    method ProcessBlocks(ghost m: seq<Byte>, data: seq<Byte>, start: nat) returns (p: nat)
      requires Shape() && start <= |data|
      requires |m + data[..start]| % 64 == 0
      requires Registers() == Chain(m + data[..start])
      modifies abcd
      ensures start <= p <= |data| < p + 64
      ensures |m + data[..p]| % 64 == 0
      ensures Registers() == Chain(m + data[..p])
    {
      hide Chain, Block;
      p := start;
      while |data| - p >= 64
        invariant start <= p <= |data|
        invariant |m + data[..p]| % 64 == 0
        invariant Registers() == Chain(m + data[..p])
      {
        ChainSnoc(m + data[..p], data[p..p + 64]);
        assert m + data[..p] + data[p..p + 64] == m + data[..p + 64];
        Process(data[p..p + 64]);
        p := p + 64;
      }
    }

    /** The bit count, low word and low byte first. */
    method CountBytes() returns (data: seq<Byte>)
      requires Valid()
      ensures data == LengthBytes(|message|)
    {
      data := [];
      for i := 0 to 8
        invariant |data| == i
        invariant forall k :: 0 <= k < i ==> data[k] == LengthBytes(|message|)[k]
      {
        ByteOfWords(count0, count1, i);
        assert count0 + WORD_RANGE * count1 == 8 * |message| % COUNT_RANGE;
        data := data + [ByteOf(if i / 4 == 0 then count0 else count1, i % 4)];
      }
    }

    /** How many bytes of padding come before the length. */
    method PadBytes() returns (k: nat)
      requires Valid()
      ensures k == PadZeros(|message|) + 1
    {
      hide Counts, Chain;
      OpenBytes(count0, count1, |message|);
      PadLength(count0, |message|);
      k := (55 - count0 / 8) % 64 + 1;
    }

    /** Appends the padding and the length of the message so far. */
    method Pad()
      requires Valid()
      modifies this, abcd, buf
      ensures Valid() && message == Padded(old(message))
    {
      hide Valid, LengthBytes;
      var data := CountBytes();
      var k := PadBytes();
      var pad := [0x80] + Zeros(63);
      Append(pad[..k]);
      assert pad[..k] == [0x80] + Zeros(k - 1);
      Append(data);
    }

    /** Pads the message and writes out the digest. */
    method Finish(digest: array<Byte>)
      requires Valid() && digest.Length == 16
      requires digest as object != abcd && digest != buf
      modifies this, abcd, buf, digest
      ensures digest[..] == Digest(old(message))
    {
      hide Chain, Padded;
      Pad();
      assert Full(message) == message;
      ghost var r := Registers();
      for i := 0 to 16
        invariant Registers() == r
        invariant forall k :: 0 <= k < i ==> digest[k] == Output(r)[k]
      {
        digest[i] := ByteOf(abcd[i / 4], i % 4);
      }
    }
  }

  lemma PadLength(count0: nat, n: nat)
    requires count0 / 8 % 64 == n % 64
    ensures (55 - count0 / 8) % 64 == PadZeros(n)
  {
  }

  lemma {:induction false} ShrIsDivision(x: nat, k: nat)
    ensures Shr(x, k) == x / Pow2(k)
  {
    if k > 0 {
      ShrIsDivision(x / 2, k - 1);
      HalfOfQuotient(x, Pow2(k - 1));
    }
  }

  lemma HalfOfQuotient(x: nat, n: nat)
    requires n > 0
    ensures x / 2 / n == x / (2 * n)
  {
    var q, r := x / 2 / n, x / 2 % n;
    assert x == (x % 2 + 2 * r) + q * (2 * n);
    RemainderIsUnique(x, 2 * n, q, x % 2 + 2 * r);
  }

  /** A byte of the 64-bit count is a byte of one of its words. */
  lemma ByteOfWords(low: nat, high: nat, i: nat)
    requires low < WORD_RANGE && high < WORD_RANGE && i < 8
    ensures ByteOf(low + WORD_RANGE * high, i) == ByteOf(if i / 4 == 0 then low else high, i % 4)
  {
    hide Shr, Pow2;
    Pow2OfBytes();
    if i < 4 {
      match i {
        case 0 => LowWordByte(low, high, 0, 0x100_0000 * high);
        case 1 => LowWordByte(low, high, 8, 0x1_0000 * high);
        case 2 => LowWordByte(low, high, 16, 0x100 * high);
        case _ => LowWordByte(low, high, 24, high);
      }
    } else {
      var n := low + WORD_RANGE * high;
      ShrTwice(n, 32, 8 * (i - 4));
      ShrIsDivision(n, 32);
      RemainderIsUnique(n, WORD_RANGE, high, low);
    }
  }

  lemma LowWordByte(low: nat, high: nat, k: nat, rest: nat)
    requires Pow2(k) * 256 * rest == WORD_RANGE * high
    ensures Shr(low + WORD_RANGE * high, k) % 256 == Shr(low, k) % 256
  {
    ShrIsDivision(low + WORD_RANGE * high, k);
    ShrIsDivision(low, k);
    LowByte(low, rest, Pow2(k));
  }

  lemma LowByte(low: nat, rest: nat, p: nat)
    requires p > 0
    ensures (low + p * 256 * rest) / p % 256 == low / p % 256
  {
    var q := low / p;
    assert low + p * 256 * rest == low % p + (q + 256 * rest) * p;
    RemainderIsUnique(low + p * 256 * rest, p, q + 256 * rest, low % p);
  }

  lemma {:induction false} ShrTwice(x: nat, a: nat, b: nat)
    ensures Shr(x, a + b) == Shr(Shr(x, a), b)
  {
    if a > 0 {
      ShrTwice(x / 2, a - 1, b);
    }
  }

  lemma Pow2OfBytes()
    ensures Pow2(0) == 1 && Pow2(8) == 0x100 && Pow2(16) == 0x1_0000 && Pow2(24) == 0x100_0000
    ensures Pow2(32) == 0x1_0000_0000 && Pow2(40) == 0x100_0000_0000
    ensures Pow2(48) == 0x1_0000_0000_0000 && Pow2(56) == 0x100_0000_0000_0000
  {
    Pow2Of32();
    assert Pow2(8) == 0x100;
    assert Pow2(16) == 0x1_0000;
    assert Pow2(24) == 0x100_0000;
    assert Pow2(40) == 0x100 * Pow2(32);
    assert Pow2(48) == 0x100 * Pow2(40);
    assert Pow2(56) == 0x100 * Pow2(48);
  }

  /** Nothing about the way a message was split survives in the state: two states that were fed the same
      bytes, in whatever pieces, agree on everything a later call looks at. */
  lemma StateIsFunctionOfMessage(s: Md5State, t: Md5State)
    requires s.Valid() && t.Valid() && s.message == t.message
    ensures s.count0 == t.count0 && s.count1 == t.count1
    ensures s.Registers() == t.Registers()
    ensures s.buf[..s.count0 / 8 % 64] == t.buf[..t.count0 / 8 % 64]
  {
    hide Chain, Full;
    OpenBytes(s.count0, s.count1, |s.message|);
    OpenBytes(t.count0, t.count1, |t.message|);
  }
}
