/** What the operations of MD5 do to single bits, as sections 2 and 3.4 of RFC 1321 put it. */
module Md5Bits {
  import opened Bits
  import opened Md5Model
  import B = Bytes

  /** Bit i of a number, counted from the low-order end. */
  predicate Bit(n: nat, i: nat) {
    if i == 0 then n % 2 == 1 else Bit(n / 2, i - 1)
  }

  lemma {:induction false} AndBit(a: nat, b: nat, i: nat)
    ensures Bit(And(a, b), i) <==> Bit(a, i) && Bit(b, i)
  {
    if a == 0 || b == 0 {
      ZeroBit(i);
    } else if i > 0 {
      AndBit(a / 2, b / 2, i - 1);
    }
  }

  lemma {:induction false} OrBit(a: nat, b: nat, i: nat)
    ensures Bit(Or(a, b), i) <==> Bit(a, i) || Bit(b, i)
  {
    if a == 0 || b == 0 {
      ZeroBit(i);
    } else if i > 0 {
      OrBit(a / 2, b / 2, i - 1);
    }
  }

  lemma {:induction false} XorBit(a: nat, b: nat, i: nat)
    ensures Bit(Xor(a, b), i) <==> Bit(a, i) != Bit(b, i)
  {
    if a == 0 || b == 0 {
      ZeroBit(i);
    } else {
      Halves((a + b) % 2, Xor(a / 2, b / 2));
      hide Xor;
      if i > 0 {
        XorBit(a / 2, b / 2, i - 1);
      }
    }
  }

  lemma Halves(low: nat, high: nat)
    requires low < 2
    ensures (low + 2 * high) % 2 == low && (low + 2 * high) / 2 == high
  {
  }

  lemma {:induction false} ZeroBit(i: nat)
    ensures !Bit(0, i)
  {
    if i > 0 {
      ZeroBit(i - 1);
    }
  }

  lemma {:induction false} ComplementBit(x: nat, k: nat, i: nat)
    requires x < Pow2(k) && i < k
    ensures Bit(Pow2(k) - 1 - x, i) <==> !Bit(x, i)
  {
    if i > 0 {
      ComplementBit(x / 2, k - 1, i - 1);
    }
  }

  lemma {:induction false} ShlBit(x: nat, s: nat, i: nat)
    ensures Bit(Shl(x, s), i) <==> i >= s && Bit(x, i - s)
    decreases s
  {
    if s > 0 && i > 0 {
      ShlBit(x, s - 1, i - 1);
    }
  }

  lemma {:induction false} ShrBit(x: nat, k: nat, i: nat)
    ensures Bit(Shr(x, k), i) <==> Bit(x, i + k)
    decreases k
  {
    if k > 0 {
      ShrBit(x / 2, k - 1, i);
    }
  }

  /** The low-order k bits are those of the remainder. */
  lemma {:induction false} LowBit(n: nat, k: nat, i: nat)
    requires i < k
    ensures Bit(n % Pow2(k), i) <==> Bit(n, i)
  {
    var h := Pow2(k - 1);
    assert Pow2(k) == 2 * h;
    hide Pow2;
    HalveModulo(n, h);
    Halves(n % 2, (n / 2) % h);
    if i > 0 {
      LowBit(n / 2, k - 1, i - 1);
    }
  }

  lemma {:induction false} HighBit(n: nat, k: nat, i: nat)
    requires n < Pow2(k) && k <= i
    ensures !Bit(n, i)
  {
    if k == 0 {
      ZeroBit(i);
    } else {
      HighBit(n / 2, k - 1, i - 1);
    }
  }

  /** The bits determine the number. */
  lemma {:induction false} SameBits(a: nat, b: nat, k: nat)
    requires a < Pow2(k) && b < Pow2(k) && forall i: nat :: i < k ==> (Bit(a, i) <==> Bit(b, i))
    ensures a == b
  {
    if k > 0 {
      forall i: nat | i < k - 1
        ensures Bit(a / 2, i) <==> Bit(b / 2, i)
      {
        assert Bit(a, i + 1) <==> Bit(b, i + 1);
      }
      SameBits(a / 2, b / 2, k - 1);
      assert Bit(a, 0) <==> Bit(b, 0);
    }
  }

  lemma WordRange()
    ensures Pow2(32) == WORD_RANGE && Pow2(64) == COUNT_RANGE
  {
    assert Pow2(8) == 0x100;
    PowPlus(8, 8);
    PowPlus(16, 16);
    PowPlus(32, 32);
  }

  lemma {:induction false} PowPlus(a: nat, b: nat)
    ensures Pow2(a + b) == Pow2(a) * Pow2(b)
  {
    if b > 0 {
      PowPlus(a, b - 1);
    }
  }

  /** F chooses by the bits of x between y and z, G by those of z between x and y; H is the parity; I is y
      exclusive or (x or not z). */
  lemma MixBit(x: Word, y: Word, z: Word, i: nat)
    requires i < 32
    ensures Bit(F(x, y, z), i) <==> if Bit(x, i) then Bit(y, i) else Bit(z, i)
    ensures Bit(G(x, y, z), i) <==> if Bit(z, i) then Bit(x, i) else Bit(y, i)
    ensures Bit(H(x, y, z), i) <==> (Bit(x, i) != (Bit(y, i) != Bit(z, i)))
    ensures Bit(I(x, y, z), i) <==> (Bit(y, i) != (Bit(x, i) || !Bit(z, i)))
  {
    hide Bit, And, Or, Xor, Pow2;
    WordRange();
    ComplementBit(x, 32, i);
    ComplementBit(z, 32, i);
    AndBit(x, y, i);
    AndBit(Not(x), z, i);
    OrBit(And(x, y), And(Not(x), z), i);
    AndBit(x, z, i);
    AndBit(y, Not(z), i);
    OrBit(And(x, z), And(y, Not(z)), i);
    XorBit(x, y, i);
    XorBit(Xor(x, y), z, i);
    OrBit(x, Not(z), i);
    XorBit(y, Or(x, Not(z)), i);
  }

  /** Rotation takes bit i of the word to bit i + s, around the end. */
  lemma RotLeftBit(x: Word, s: nat, i: nat)
    requires s < 32 && i < 32
    ensures Bit(RotLeft(x, s), (i + s) % 32) <==> Bit(x, i)
  {
    hide Bit, Shl, Shr, Or, Pow2;
    WordRange();
    var j := (i + s) % 32;
    OrBit(Shl(x, s) % WORD_RANGE, Shr(x, 32 - s), j);
    LowBit(Shl(x, s), 32, j);
    ShlBit(x, s, j);
    ShrBit(x, 32 - s, j);
    if i + s < 32 {
      HighBit(x, 32, j + (32 - s));
    }
  }

  /** One step in the words of section 3.4: b + ((a + mix + word + sine) <<< shift), all modulo 2^32. */
  lemma StepMeans(r: Regs, x: seq<Word>, i: nat)
    requires |x| == 16 && i < 64
    ensures var sum := (r.a + Mix(i, r.b, r.c, r.d) + x[Index(i)] + Sine(i)) % 0x1_0000_0000;
      Step(r, x, i) == Regs(r.d, (r.b + RotLeft(sum, Shift(i))) % 0x1_0000_0000, r.b, r.c)
  {
    hide Mix, Index, Sine, Shift, RotLeft;
    var t: Word := (r.a + Mix(i, r.b, r.c, r.d) + x[Index(i)] + Sine(i)) % WORD_RANGE;
    SumsMean(r.a, Mix(i, r.b, r.c, r.d), x[Index(i)], Sine(i), r.b, RotLeft(t, Shift(i)));
    hide Sum, Add;
  }

  lemma SumsMean(a: Word, f: nat, x: Word, t: Word, b: Word, rotated: nat)
    ensures Sum(a, f, x, t) == (a + f + x + t) % WORD_RANGE && Add(b, rotated) == (b + rotated) % WORD_RANGE
  {
  }

  /** The chaining words start as the sixteen bytes that section 3.3 lists, low-order bytes first. */
  lemma InitialBytes()
    ensures INITIAL.a == WordOf([0x01, 0x23, 0x45, 0x67]) && INITIAL.b == WordOf([0x89, 0xab, 0xcd, 0xef])
    ensures INITIAL.c == WordOf([0xfe, 0xdc, 0xba, 0x98]) && INITIAL.d == WordOf([0x76, 0x54, 0x32, 0x10])
  {
  }

  /** The bytes of a word, put together again, are the word. */
  lemma WordOfBytes(w: Word)
    ensures WordOf([ByteOf(w, 0), ByteOf(w, 1), ByteOf(w, 2), ByteOf(w, 3)]) == w
  {
    hide Shr;
    ShrIsDivision(w, 0);
    ShrIsDivision(w, 8);
    ShrIsDivision(w, 16);
    ShrIsDivision(w, 24);
    Powers();
    hide Pow2;
    DivideTwice(w, 0x100, 0x100);
    DivideTwice(w, 0x1_0000, 0x100);
  }

  lemma Powers()
    ensures Pow2(0) == 1 && Pow2(8) == 0x100 && Pow2(16) == 0x1_0000 && Pow2(24) == 0x100_0000
  {
    PowPlus(8, 8);
    PowPlus(8, 16);
  }

  /** Within a round every word of the block is used exactly once: its number tells the step. */
  lemma EveryWordOnce(i: nat)
    requires i < 64
    ensures i % 16 == if i < 16 then Index(i)
                      else if i < 32 then 13 * (Index(i) + 15) % 16
                      else if i < 48 then 11 * (Index(i) + 11) % 16
                      else 7 * (Index(i) + 16) % 16
  {
    if i < 16 {
    } else if i < 32 {
      UndoTimes(i, 5, 1, 13);
    } else if i < 48 {
      UndoTimes(i, 3, 5, 11);
    } else {
      UndoTimes(i, 7, 0, 7);
    }
  }

  /** The rotations repeat every four steps, four of them for each round. */
  lemma FourShifts(round: nat, i: nat)
    requires round < 4 && i < 16
    ensures Shift(16 * round + i) == [[7, 12, 17, 22], [5, 9, 14, 20], [4, 11, 16, 23], [6, 10, 15, 21]][round][i % 4]
  {
  }

  /** Multiplication by an odd number is undone modulo 16. */
  lemma UndoTimes(i: nat, m: nat, add: nat, inverse: nat)
    requires (m == 5 && inverse == 13) || (m == 3 && inverse == 11) || (m == 7 && inverse == 7)
    requires add < 16
    ensures i % 16 == inverse * ((m * i + add) % 16 + (16 - add)) % 16
  {
    var q := (m * i + add) / 16;
    var t := i / 16 + (m * inverse - 1) / 16 * i - inverse * q + inverse;
    assert inverse * ((m * i + add) % 16 + (16 - add)) == i % 16 + t * 16;
    RemainderIsUnique(inverse * ((m * i + add) % 16 + (16 - add)), 16, t, i % 16);
  }

  lemma ShrIsDivisionByBytes(n: nat, k: nat)
    ensures Shr(n, 8 * k) == n / B.Range(k)
  {
    RangeIsPower(k);
    ShrIsDivision(n, 8 * k);
  }

  lemma {:induction false} RangeIsPower(k: nat)
    ensures B.Range(k) == Pow2(8 * k)
  {
    if k > 0 {
      RangeIsPower(k - 1);
      assert Pow2(8) == 256;
      PowPlus(8 * (k - 1), 8);
    }
  }

  lemma {:induction false} ByteOfLittleEndian(n: nat, k: nat, i: nat)
    requires i < k
    ensures B.LittleEndian(n, k)[i] == n / B.Range(i) % 256
  {
    if i > 0 {
      ByteOfLittleEndian(n / 256, k - 1, i - 1);
      DivideTwice(n, 256, B.Range(i - 1));
    }
  }

  /** Eight bytes of a number, low-order byte first. */
  lemma EightBytes(n: nat)
    ensures seq(8, i requires 0 <= i < 8 => ByteOf(n, i)) == B.LittleEndian(n, 8)
  {
    forall i: nat | i < 8
      ensures ByteOf(n, i) == B.LittleEndian(n, 8)[i]
    {
      ByteOfLittleEndian(n, 8, i);
      ShrIsDivisionByBytes(n, i);
    }
  }

  /** Sections 3.1 and 3.2: the message, a one bit, fewer than 64 bytes of zeros, and in eight bytes the number
      of the message's bits modulo 2^64. */
  lemma PaddedMeans(m: seq<Byte>)
    ensures var p, n := Padded(m), |m|;
      && n + 9 <= |p| < n + 73 && |p| % 64 == 0 && p[..n] == m && p[n] == 0x80
      && (forall i :: n < i < |p| - 8 ==> p[i] == 0)
      && B.Number(p[|p| - 8..]) == 8 * n % Pow2(64)
  {
    var p, n, bits := Padded(m), |m|, 8 * |m| % COUNT_RANGE;
    assert p[|p| - 8..] == LengthBytes(n) == seq(8, i requires 0 <= i < 8 => ByteOf(bits, i));
    EightBytes(bits);
    WordRange();
    B.Ranges();
    B.NumberOfLittleEndian(bits, 8);
  }
}
