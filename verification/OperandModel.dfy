/** Memory operands of 64-bit instructions: the ModRM, SIB and displacement bytes of section 2.1.5 of the
    Intel SDM volume 2A with the REX bits of section 2.2.1, and how the decoder reads them. */
module OperandModel {
  import opened Bytes

  const WORD := 0x1_0000_0000_0000_0000

  /** The decoder's register numbers, with 0 for no register. */
  const NONE: nat := 0
  const RAX: nat := 53
  const RSP: nat := RAX + 4
  const RBP: nat := RAX + 5
  const R13: nat := RAX + 13
  const RIP: nat := 155

  // ----- operands and their encodings

  datatype Base = NoBase | Rip | Reg(n: nat)

  datatype Index = NoIndex | Scaled(n: nat, shift: nat)

  /** base + index * 2^shift + disp, with the displacement stored in `width` bits. */
  datatype Mem = Mem(base: Base, index: Index, width: nat, disp: int)

  /** What an encoder is free to choose: the register field, whether to use a SIB byte that is not needed,
      the scale bits without an index, and REX bits that nothing looks at. */
  datatype Choice = Choice(reg: nat, sib: bool, shift: nat, rexX: nat, rexB: nat) {
    predicate Valid() {
      reg < 8 && shift < 4 && rexX < 2 && rexB < 2
    }
  }

  /** The operands that have an encoding. */
  predicate Encodable(m: Mem) {
    && (m.width == 0 || m.width == 8 || m.width == 32)
    && (m.index.Scaled? ==> m.index.n < 16 && m.index.n != 4 && m.index.shift < 4)
    && (match m.base
        case NoBase => m.width == 32
        case Rip => m.width == 32 && m.index == NoIndex
        case Reg(n) => n < 16 && (m.width == 0 ==> n % 8 != 5))
    && match m.width
       case 0 => m.disp == 0
       case 8 => -0x80 <= m.disp < 0x80
       case _ => -0x8000_0000 <= m.disp < 0x8000_0000
  }

  /** No SIB byte with RIP; one is needed for an index, without a base, and for bases whose low bits say so. */
  predicate Allows(m: Mem, c: Choice) {
    && c.Valid()
    && (m.base == Rip ==> !c.sib)
    && (m.index.Scaled? || m.base == NoBase || (m.base.Reg? && m.base.n % 8 == 4) ==> c.sib)
  }

  function ModField(m: Mem): (f: nat)
    ensures f < 3
  {
    if !m.base.Reg? || m.width == 0 then 0 else if m.width == 8 then 1 else 2
  }

  function RmField(m: Mem, c: Choice): (f: nat)
    ensures f < 8
  {
    if c.sib then 4 else if m.base.Reg? then m.base.n % 8 else 5
  }

  function ModRmByte(m: Mem, c: Choice): Byte
    requires c.Valid()
  {
    64 * ModField(m) + 8 * c.reg + RmField(m, c)
  }

  function SibByte(m: Mem, c: Choice): Byte
    requires c.Valid() && Encodable(m)
  {
    64 * (if m.index.Scaled? then m.index.shift else c.shift)
    + 8 * (if m.index.Scaled? then m.index.n % 8 else 4)
    + if m.base.Reg? then m.base.n % 8 else 5
  }

  function RexB(m: Mem, c: Choice): nat {
    if m.base.Reg? then m.base.n / 8 else c.rexB
  }

  function RexX(m: Mem, c: Choice): nat {
    if m.index.Scaled? then m.index.n / 8 else if c.sib then 0 else c.rexX
  }

  function Unsigned(disp: int, width: nat): nat {
    if disp >= 0 then disp
    else if width == 8 && disp >= -0x100 then disp + 0x100
    else if disp >= -0x1_0000_0000 then disp + 0x1_0000_0000 else 0
  }

  function Encode(m: Mem, c: Choice): (s: seq<Byte>)
    requires Encodable(m) && Allows(m, c)
  {
    [ModRmByte(m, c)] + (if c.sib then [SibByte(m, c)] else []) + LittleEndian(Unsigned(m.disp, m.width), m.width / 8)
  }

  // ----- what the decoder makes of the bytes

  /** The fields of a decoded operand.  The displacement is unsigned; a scale of 0 stands for 1. */
  datatype Raw = Raw(base: nat, index: nat, scale: nat, offset: nat, lval: nat)

  datatype Decoded = Truncated | Register(n: nat) | Memory(raw: Raw, used: nat)

  /** Base, index, scale and displacement width, from the ModRM byte and the SIB byte if there is one. */
  function Fields(rexX: nat, rexB: nat, modrm: Byte, sib: Byte): (raw: Raw)
    ensures raw.lval == 0 && (raw.offset == 0 || raw.offset == 8 || raw.offset == 32)
  {
    var mod, rm := modrm / 64, modrm % 8;
    if rm == 4 then
      var b, i := sib % 8, 8 * rexX + sib / 8 % 8;
      Raw(if b == 5 && mod == 0 then NONE else RAX + 8 * rexB + b,
          if i == 4 then NONE else RAX + i,
          if i == 4 then 0 else ScaleOf(sib / 64),
          if mod == 1 then 8 else if mod == 2 || b == 5 then 32 else 0, 0)
    else if rm == 5 && mod == 0 then Raw(RIP, NONE, 0, 32, 0)
    else Raw(RAX + 8 * rexB + rm, NONE, 0, if mod == 1 then 8 else if mod == 2 then 32 else 0, 0)
  }

  /** The ModRM byte and the SIB byte, which follows exactly when the low bits are 4. */
  function Head(modrm: Byte): (n: nat)
    ensures 1 <= n <= 2
  {
    if modrm % 8 == 4 then 2 else 1
  }

  function Decode(rexX: nat, rexB: nat, s: seq<Byte>): Decoded {
    if s == [] then Truncated
    else if s[0] / 64 == 3 then Register(8 * rexB + s[0] % 8)
    else
      var n := Head(s[0]);
      if |s| < n then Truncated
      else
        var raw := Fields(rexX, rexB, s[0], s[n - 1]);
        var used := n + raw.offset / 8;
        if |s| < used then Truncated else Memory(raw.(lval := Number(s[n..used])), used)
  }

  function ScaleOf(shift: nat): (s: nat)
    ensures s <= 8
  {
    match shift
    case 0 => 0
    case 1 => 2
    case 2 => 4
    case _ => 8
  }

  function RawOf(m: Mem): Raw {
    Raw(match m.base { case NoBase => NONE case Rip => RIP case Reg(n) => RAX + n },
        if m.index.Scaled? then RAX + m.index.n else NONE,
        if m.index.Scaled? then ScaleOf(m.index.shift) else 0,
        m.width, Unsigned(m.disp, m.width))
  }

  /** Decoding any encoding of an operand gives the operand back and uses exactly the encoded bytes. */
  lemma DecodeEncode(m: Mem, c: Choice, rest: seq<Byte>)
    requires Encodable(m) && Allows(m, c)
    ensures Decode(RexX(m, c), RexB(m, c), Encode(m, c) + rest) == Memory(RawOf(m), |Encode(m, c)|)
  {
    var s, k := Encode(m, c) + rest, m.width / 8;
    var disp := LittleEndian(Unsigned(m.disp, m.width), k);
    var used := if c.sib then 2 else 1;
    assert s[0] == ModRmByte(m, c);
    assert c.sib ==> s[1] == SibByte(m, c);
    assert s[used..used + k] == disp;
    Ranges();
    NumberOfLittleEndian(Unsigned(m.disp, m.width), k);
    ModRmFields(m, c);
    if c.sib {
      SibFields(m, c);
    }
  }

  lemma ModRmFields(m: Mem, c: Choice)
    requires c.Valid()
    ensures ModRmByte(m, c) / 64 == ModField(m) && ModRmByte(m, c) % 8 == RmField(m, c)
  {
  }

  lemma SibFields(m: Mem, c: Choice)
    requires c.Valid() && Encodable(m)
    ensures SibByte(m, c) / 64 == if m.index.Scaled? then m.index.shift else c.shift
    ensures SibByte(m, c) / 8 % 8 == if m.index.Scaled? then m.index.n % 8 else 4
    ensures SibByte(m, c) % 8 == if m.base.Reg? then m.base.n % 8 else 5
  {
    ThreeFields(if m.index.Scaled? then m.index.shift else c.shift, if m.index.Scaled? then m.index.n % 8 else 4,
                if m.base.Reg? then m.base.n % 8 else 5);
  }

  lemma ThreeFields(a: nat, b: nat, c: nat)
    requires a < 4 && b < 8 && c < 8
    ensures (64 * a + 8 * b + c) / 64 == a && (64 * a + 8 * b + c) / 8 % 8 == b && (64 * a + 8 * b + c) % 8 == c
  {
  }

  // ----- the other direction

  function Signed(n: nat, width: nat): int {
    if width == 8 && n >= 0x80 then n - 0x100
    else if width == 16 && n >= 0x8000 then n - 0x1_0000
    else if width == 32 && n >= 0x8000_0000 then n - 0x1_0000_0000
    else if width == 64 && n >= WORD / 2 then n - WORD
    else n
  }

  lemma SignedFits(s: seq<Byte>, width: nat)
    requires width == 8 * |s| && (width == 0 || width == 8 || width == 32)
    ensures var disp := Signed(Number(s), width);
      && LittleEndian(Unsigned(disp, width), width / 8) == s && Unsigned(disp, width) == Number(s)
      && Encodable(Mem(Reg(0), NoIndex, width, disp))
  {
    Ranges();
    LittleEndianOfNumber(s);
  }

  /** The decoder reads nothing into the bytes: whatever it decodes as a memory operand is an encoding of
      that operand, under the REX bits at hand. */
  lemma EncodeDecode(rexX: nat, rexB: nat, s: seq<Byte>) returns (m: Mem, c: Choice)
    requires rexX < 2 && rexB < 2 && Decode(rexX, rexB, s).Memory?
    ensures Encodable(m) && Allows(m, c) && RexX(m, c) == rexX && RexB(m, c) == rexB
    ensures var d := Decode(rexX, rexB, s);
      d.used <= |s| && Encode(m, c) == s[..d.used] && RawOf(m) == d.raw
  {
    if s[0] % 8 == 4 {
      m, c := EncodeSib(rexX, rexB, s);
    } else {
      m, c := EncodePlain(rexX, rexB, s);
    }
  }

  lemma EncodeSib(rexX: nat, rexB: nat, s: seq<Byte>) returns (m: Mem, c: Choice)
    requires rexX < 2 && rexB < 2 && Decode(rexX, rexB, s).Memory? && s[0] % 8 == 4
    ensures Encodable(m) && Allows(m, c) && RexX(m, c) == rexX && RexB(m, c) == rexB
    ensures var d := Decode(rexX, rexB, s);
      d.used <= |s| && Encode(m, c) == s[..d.used] && RawOf(m) == d.raw
  {
    hide Number, LittleEndian, Signed, Unsigned, ScaleOf;
    var d := Decode(rexX, rexB, s);
    Split(s[0]);
    Split(s[1]);
    var mod, reg, b, i, shift := s[0] / 64, s[0] / 8 % 8, s[1] % 8, s[1] / 8 % 8 + 8 * rexX, s[1] / 64;
    var bytes := s[2..d.used];
    SignedFits(bytes, d.raw.offset);
    m := Mem(if b == 5 && mod == 0 then NoBase else Reg(8 * rexB + b),
             if i == 4 then NoIndex else Scaled(i, shift), d.raw.offset, Signed(Number(bytes), d.raw.offset));
    c := Choice(reg, true, shift, 0, rexB);
    assert ModRmByte(m, c) == s[0];
    SibAgain(m, c, s[1], b, i, shift);
    assert s[..d.used] == [s[0]] + [s[1]] + bytes;
  }

  lemma SibAgain(m: Mem, c: Choice, byte: Byte, b: nat, i: nat, shift: nat)
    requires Encodable(m) && c.Valid() && shift < 4
    requires byte == 64 * shift + 8 * (i % 8) + b
    requires if m.base.Reg? then m.base.n % 8 == b else b == 5
    requires if m.index.Scaled? then m.index == Scaled(i, shift) else i == 4 && c.shift == shift
    ensures SibByte(m, c) == byte
  {
  }

  lemma EncodePlain(rexX: nat, rexB: nat, s: seq<Byte>) returns (m: Mem, c: Choice)
    requires rexX < 2 && rexB < 2 && Decode(rexX, rexB, s).Memory? && s[0] % 8 != 4
    ensures Encodable(m) && Allows(m, c) && RexX(m, c) == rexX && RexB(m, c) == rexB
    ensures var d := Decode(rexX, rexB, s);
      d.used <= |s| && Encode(m, c) == s[..d.used] && RawOf(m) == d.raw
  {
    hide Number, LittleEndian, Signed, Unsigned;
    var d := Decode(rexX, rexB, s);
    Split(s[0]);
    var mod, reg, rm := s[0] / 64, s[0] / 8 % 8, s[0] % 8;
    var bytes := s[1..d.used];
    SignedFits(bytes, d.raw.offset);
    m := Mem(if rm == 5 && mod == 0 then Rip else Reg(8 * rexB + rm), NoIndex, d.raw.offset,
             Signed(Number(bytes), d.raw.offset));
    c := Choice(reg, false, 0, rexX, rexB);
    assert ModRmByte(m, c) == s[0];
    assert s[..d.used] == [s[0]] + [] + bytes;
  }

  lemma Split(b: Byte)
    ensures b == 64 * (b / 64) + 8 * (b / 8 % 8) + b % 8 && b / 64 < 4
  {
  }

  // ----- the address

  /** Addition of 64-bit words. */
  function Plus(a: nat, b: int): (c: nat)
    ensures c < WORD
  {
    (a + b) % WORD
  }

  /** The sign-extended displacement of an operand; 0 for any width but those of a displacement. */
  function Displacement(op: Raw): int {
    if op.offset == 8 || op.offset == 16 || op.offset == 32 || op.offset == 64 then Signed(op.lval, op.offset) else 0
  }

  /** What the operand's fields address, when `reg` holds the registers' values. */
  function Ea(op: Raw, reg: nat -> nat): (a: nat)
    ensures a < WORD
  {
    var disp := Plus(0, Displacement(op));
    var based := if op.base == NONE then disp else Plus(disp, reg(op.base));
    if op.index == NONE then based
    else if op.scale == 0 then Plus(based, reg(op.index))
    else Plus(based, reg(op.index) * op.scale)
  }

  function Half(width: nat): int {
    match width
    case 8 => 0x80
    case 16 => 0x8000
    case 32 => 0x8000_0000
    case _ => 0x8000_0000_0000_0000
  }

  /** Two's complement: the displacement has the value's low bits, and as many values below zero as not. */
  lemma SignExtends(n: nat, width: nat)
    requires (width == 8 || width == 16 || width == 32 || width == 64) && n < 2 * Half(width)
    ensures -Half(width) <= Signed(n, width) < Half(width)
    ensures Signed(n, width) % (2 * Half(width)) == n
  {
  }

  /** Whatever the fields are, the address is their sum: displacement, base if there is one, and index times
      scale, where a scale of 0 stands for 1. */
  lemma EaIsSum(op: Raw, reg: nat -> nat)
    ensures var wide := op.offset == 8 || op.offset == 16 || op.offset == 32 || op.offset == 64;
      var base := if op.base == 0 then 0 else reg(op.base);
      var scale := if op.scale == 0 then 1 else op.scale;
      var index := if op.index == 0 then 0 else reg(op.index) * scale;
      Ea(op, reg) == ((if wide then Signed(op.lval, op.offset) else 0) + base + index) % 0x1_0000_0000_0000_0000
  {
    hide Signed;
    var d := Displacement(op);
    var b := if op.base == NONE then 0 else reg(op.base);
    var scale := if op.scale == 0 then 1 else op.scale;
    var i: nat := if op.index == NONE then 0 else reg(op.index) * scale;
    AddModulo(d, b);
    AddModulo(d + b, i);
  }

  function Factor(shift: nat): nat {
    match shift
    case 0 => 1
    case 1 => 2
    case 2 => 4
    case _ => 8
  }

  /** base + index * 2^shift + displacement, modulo 2^64. */
  function Address(m: Mem, reg: nat -> nat): nat {
    ((if m.base.Reg? then reg(RAX + m.base.n) else 0)
     + (if m.index.Scaled? then reg(RAX + m.index.n) * Factor(m.index.shift) else 0) + m.disp) % WORD
  }

  /** The wrapping additions over the fields of a decoded operand come to the operand's address. */
  lemma EffectiveAddress(m: Mem, reg: nat -> nat)
    requires Encodable(m) && m.base != Rip
    ensures Ea(RawOf(m), reg) == Address(m, reg)
  {
    var raw := RawOf(m);
    assert Displacement(raw) == m.disp;
    var b := if m.base.Reg? then reg(RAX + m.base.n) else 0;
    var i := if m.index.Scaled? then reg(RAX + m.index.n) * Factor(m.index.shift) else 0;
    AddModulo(m.disp, b);
    AddModulo(m.disp + b, i);
  }

  lemma AddModulo(a: int, b: int)
    ensures (a % WORD + b) % WORD == (a + b) % WORD
  {
  }
}
