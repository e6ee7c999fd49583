/** The decoder object: its byte input, its ModRM cache, and the reading of a memory operand in 64-bit
    addressing; and the address computation over the decoded fields. */
module Operand {
  import opened Bytes
  import opened OperandModel

  const OP_MEM: nat := 157

  /** One operand of an instruction, filled in field by field. */
  class UdOperand {
    var kind: nat
    var size: nat
    var base: nat
    var index: nat
    var scale: nat
    var offset: nat
    var lval: nat

    constructor ()
      ensures kind == base == index == scale == offset == lval == size == 0
    {
      kind, size, base, index, scale, offset, lval := 0, 0, 0, 0, 0, 0, 0;
    }

    /** The operand holds these fields; without a displacement its value is whatever was there. */
    ghost predicate Is(raw: Raw)
      reads this
    {
      && base == raw.base && index == raw.index && scale == raw.scale && offset == raw.offset
      && (offset != 0 ==> lval == raw.lval)
    }
  }

  /** What a ModRM operand turned out to be: memory, described by the operand, or a register number that
      is still to be mapped to a register of the right class. */
  datatype Rm = MemoryOperand | RegisterOperand(n: nat)

  class Ud {
    const inpBuf: seq<Byte>
    var inpBufIndex: nat
    var inpEnd: bool
    var inpCtr: nat
    var inpCurr: Byte
    var error: bool
    var rex: nat
    var haveModrm: bool
    var modrm: Byte
    var modrmOffset: int

    ghost predicate Valid()
      reads this
    {
      inpBufIndex <= |inpBuf| && rex < 16
    }

    /** The bytes that are still to come. */
    ghost function Rest(): seq<Byte>
      requires Valid()
      reads this
    {
      if inpEnd then [] else inpBuf[inpBufIndex..]
    }

    /** The same with a ModRM byte that was read ahead. */
    ghost function Pending(): seq<Byte>
      requires Valid()
      reads this
    {
      if haveModrm then [modrm] + Rest() else Rest()
    }

    constructor (buf: seq<Byte>, rex: nat)
      requires rex < 16
      ensures Valid() && Pending() == buf && !error && this.rex == rex
    {
      inpBuf, inpBufIndex, inpEnd, inpCtr, inpCurr, error := buf, 0, false, 0, 0, false;
      this.rex, haveModrm, modrm, modrmOffset := rex, false, 0, 0;
    }

    /** The next byte; at the end of the input 0, with the error flag set and the current byte kept. */
    method InpNext() returns (b: Byte)
      requires Valid()
      modifies this`inpBufIndex, this`inpEnd, this`inpCtr, this`inpCurr, this`error
      ensures Valid()
      ensures old(Rest()) != [] ==> b == inpCurr == old(Rest())[0] && Rest() == old(Rest())[1..] && error == old(error)
      ensures old(Rest()) == [] ==> b == 0 && Rest() == [] && error && inpCurr == old(inpCurr)
    {
      if !inpEnd {
        if inpBufIndex < |inpBuf| {
          inpCtr := inpCtr + 1;
          inpCurr := inpBuf[inpBufIndex];
          inpBufIndex := inpBufIndex + 1;
          return inpCurr;
        }
      }
      inpEnd := true;
      error := true;
      return 0;
    }

    /** The ModRM byte, read on first use. */
    method Modrm() returns (b: Byte)
      requires Valid()
      modifies this`inpBufIndex, this`inpEnd, this`inpCtr, this`inpCurr, this`error
      modifies this`haveModrm, this`modrm, this`modrmOffset
      ensures Valid() && haveModrm && b == modrm && (old(haveModrm) ==> unchanged(this))
      ensures old(Pending()) != [] ==> Pending() == old(Pending()) && error == old(error)
      ensures old(Pending()) == [] ==> b == 0 && Rest() == [] && error
    {
      if !haveModrm {
        modrm := InpNext();
        modrmOffset := inpCtr - 1;
        haveModrm := true;
      }
      return modrm;
    }

    method InpUint8() returns (n: nat)
      requires Valid()
      modifies this`inpBufIndex, this`inpEnd, this`inpCtr, this`inpCurr, this`error
      ensures Valid()
      ensures |old(Rest())| >= 1 ==> n == Number(old(Rest())[..1]) && Rest() == old(Rest())[1..] && error == old(error)
      ensures |old(Rest())| < 1 ==> error
    {
      n := InpNext();
      assert |old(Rest())| >= 1 ==> Number(old(Rest())[..1]) == n + 256 * Number(old(Rest())[..1][1..]);
    }

    /** The first k bytes of s are read, or the input ended before. */
    ghost predicate Consumed(s: seq<Byte>, e: bool, k: nat)
      requires Valid()
      reads this
    {
      if |s| < k then Rest() == [] && error else Rest() == s[k..] && error == e
    }

    /** Byte k of the bytes s that were there at first. */
    method InpByte(ghost s: seq<Byte>, ghost e: bool, ghost k: nat) returns (b: nat)
      requires Valid() && Consumed(s, e, k)
      modifies this`inpBufIndex, this`inpEnd, this`inpCtr, this`inpCurr, this`error
      ensures Valid() && Consumed(s, e, k + 1)
      ensures k < |s| ==> b == s[k]
    {
      b := InpNext();
    }

    /** Two bytes, low-order byte first. */
    method InpUint16() returns (n: nat)
      requires Valid()
      modifies this`inpBufIndex, this`inpEnd, this`inpCtr, this`inpCurr, this`error
      ensures Valid()
      ensures |old(Rest())| >= 2 ==> n == Number(old(Rest())[..2]) && Rest() == old(Rest())[2..] && error == old(error)
      ensures |old(Rest())| < 2 ==> error
    {
      hide *;
      ghost var s, e := Rest(), error;
      n := InpByte(s, e, 0);
      var r: nat := InpByte(s, e, 1);
      n := n + 0x100 * r;
      if |s| >= 2 {
        TwoBytes(s);
      }
    }

    /** Four bytes. */
    method InpUint32() returns (n: nat)
      requires Valid()
      modifies this`inpBufIndex, this`inpEnd, this`inpCtr, this`inpCurr, this`error
      ensures Valid()
      ensures |old(Rest())| >= 4 ==> n == Number(old(Rest())[..4]) && Rest() == old(Rest())[4..] && error == old(error)
      ensures |old(Rest())| < 4 ==> error
    {
      hide *;
      ghost var s, e := Rest(), error;
      n := InpByte(s, e, 0);
      var r: nat := InpByte(s, e, 1);
      n := n + 0x100 * r;
      r := InpByte(s, e, 2);
      n := n + 0x1_0000 * r;
      r := InpByte(s, e, 3);
      n := n + 0x100_0000 * r;
      if |s| >= 4 {
        FourBytes(s);
      }
    }

    /** Eight bytes. */
    method InpUint64() returns (n: nat)
      requires Valid()
      modifies this`inpBufIndex, this`inpEnd, this`inpCtr, this`inpCurr, this`error
      ensures Valid()
      ensures |old(Rest())| >= 8 ==> n == Number(old(Rest())[..8]) && Rest() == old(Rest())[8..] && error == old(error)
      ensures |old(Rest())| < 8 ==> error
    {
      hide *;
      ghost var s, e := Rest(), error;
      n := InpByte(s, e, 0);
      var r: nat := InpByte(s, e, 1);
      n := n + 0x100 * r;
      r := InpByte(s, e, 2);
      n := n + 0x1_0000 * r;
      r := InpByte(s, e, 3);
      n := n + 0x100_0000 * r;
      r := InpByte(s, e, 4);
      n := n + 0x1_0000_0000 * r;
      r := InpByte(s, e, 5);
      n := n + 0x100_0000_0000 * r;
      r := InpByte(s, e, 6);
      n := n + 0x1_0000_0000_0000 * r;
      r := InpByte(s, e, 7);
      n := n + 0x100_0000_0000_0000 * r;
      if |s| >= 8 {
        EightBytes(s);
      }
    }

    lemma TwoBytes(s: seq<Byte>)
      requires |s| >= 2
      ensures Number(s[..2]) == s[0] + 0x100 * (s[1] as nat)
    {
      Ranges();
      NumberTake(s, 0);
      NumberTake(s, 1);
    }

    lemma FourBytes(s: seq<Byte>)
      requires |s| >= 4
      ensures Number(s[..4]) == s[0] + 0x100 * (s[1] as nat) + 0x1_0000 * (s[2] as nat) + 0x100_0000 * (s[3] as nat)
    {
      Ranges();
      TwoBytes(s);
      NumberTake(s, 2);
      NumberTake(s, 3);
    }

    lemma EightBytes(s: seq<Byte>)
      requires |s| >= 8
      ensures Number(s[..8]) ==
        s[0] + 0x100 * (s[1] as nat) + 0x1_0000 * (s[2] as nat) + 0x100_0000 * (s[3] as nat)
        + 0x1_0000_0000 * (s[4] as nat) + 0x100_0000_0000 * (s[5] as nat)
        + 0x1_0000_0000_0000 * (s[6] as nat) + 0x100_0000_0000_0000 * (s[7] as nat)
    {
      Ranges();
      FourBytes(s);
      NumberTake(s, 4);
      NumberTake(s, 5);
      NumberTake(s, 6);
      NumberTake(s, 7);
    }

    predicate IsWidth(size: nat) {
      size == 8 || size == 16 || size == 32 || size == 64
    }

    /** The displacement of the given width; nothing for any other width. */
    method DecodeMemDisp(size: nat, op: UdOperand)
      requires Valid()
      modifies this`inpBufIndex, this`inpEnd, this`inpCtr, this`inpCurr, this`error, op`offset, op`lval
      ensures Valid()
      ensures IsWidth(size) ==> op.offset == size
      ensures IsWidth(size) && |old(Rest())| >= size / 8 ==>
        op.lval == Number(old(Rest())[..size / 8]) && Rest() == old(Rest())[size / 8..] && error == old(error)
      ensures IsWidth(size) && |old(Rest())| < size / 8 ==> error
      ensures !IsWidth(size) ==> unchanged(this) && unchanged(op)
    {
      match size {
        case 8 =>
          op.offset := 8;
          op.lval := InpUint8();
        case 16 =>
          op.offset := 16;
          op.lval := InpUint16();
        case 32 =>
          op.offset := 32;
          op.lval := InpUint32();
        case 64 =>
          op.offset := 64;
          op.lval := InpUint64();
        case _ =>
      }
    }

    /** The mod field, and the r/m field with the REX bit. */
    method ModAndRm() returns (mod: nat, rm: nat)
      requires Valid()
      modifies this`inpBufIndex, this`inpEnd, this`inpCtr, this`inpCurr, this`error
      modifies this`haveModrm, this`modrm, this`modrmOffset
      ensures Valid() && haveModrm && mod == modrm / 64 < 4 && rm == rex % 2 * 8 + modrm % 8
      ensures var s := old(Pending());
        if s == [] then modrm == 0 && Rest() == [] && error
        else s == [modrm] + Rest() && error == old(error)
    {
      var b := Modrm();
      mod := b / 64 % 4;
      b := Modrm();
      rm := rex % 2 * 8 + b % 8;
    }

    /** The operand that the ModRM byte and what follows it describe, with 64-bit addressing. */
    method DecodeModrmRm(op: UdOperand, size: nat) returns (r: Rm)
      requires Valid()
      modifies this`inpBufIndex, this`inpEnd, this`inpCtr, this`inpCurr, this`error
      modifies this`haveModrm, this`modrm, this`modrmOffset, op
      ensures Valid()
      ensures match Decode(rex / 2 % 2, rex % 2, old(Pending()))
              case Truncated => error
              case Register(n) =>
                && r == RegisterOperand(n) && unchanged(op)
                && Pending() == old(Pending()) && error == old(error)
              case Memory(raw, used) =>
                && r == MemoryOperand && op.kind == OP_MEM && op.size == size && op.Is(raw)
                && Rest() == old(Pending())[used..] && error == old(error)
    {
      hide Decode, Fields, Number, Head;
      ghost var s, x, b := Pending(), rex / 2 % 2, rex % 2;
      DecodeNothing(x, b);
      var mod, rm := ModAndRm();
      ghost var t := Rest();
      DecodeAfterModrm(x, b, modrm, t);
      if mod == 3 {
        return RegisterOperand(rm);
      }
      op.kind := OP_MEM;
      op.size := size;
      r := MemoryOperand;
      DecodeMemory(op, mod, rm);
    }

    lemma DecodeNothing(rexX: nat, rexB: nat)
      ensures Decode(rexX, rexB, []) == Truncated
    {
    }

    /** What Decode says, in terms of the bytes behind the ModRM byte. */
    lemma DecodeAfterModrm(rexX: nat, rexB: nat, b: Byte, t: seq<Byte>)
      ensures var n := Head(b) - 1;
        var raw := Fields(rexX, rexB, b, if n == 0 then b else if t == [] then 0 else t[0]);
        var used := n + raw.offset / 8;
        Decode(rexX, rexB, [b] + t) ==
        if b / 64 == 3 then Register(8 * rexB + b % 8)
        else if |t| < n || |t| < used then Truncated
        else Memory(raw.(lval := Number(t[n..used])), used + 1)
      ensures forall k :: 0 <= k <= |t| ==> ([b] + t)[k + 1..] == t[k..]
    {
      hide Number;
      var s := [b] + t;
      assert forall j, k :: 0 <= j <= k <= |t| ==> s[j + 1..k + 1] == t[j..k];
    }

    /** The memory operand of a ModRM byte that has been read. */
    method DecodeMemory(op: UdOperand, mod: nat, rm: nat)
      requires Valid() && mod == modrm / 64 < 3 && rm == rex % 2 * 8 + modrm % 8
      modifies this`inpBufIndex, this`inpEnd, this`inpCtr, this`inpCurr, this`error
      modifies op`base, op`index, op`scale, op`offset, op`lval
      ensures Valid()
      ensures var t := old(Rest());
        var n := Head(modrm) - 1;
        var raw := Fields(rex / 2 % 2, rex % 2, modrm, if n == 0 then modrm else if t == [] then 0 else t[0]);
        var used := n + raw.offset / 8;
        if |t| < n || |t| < used then error
        else op.Is(raw.(lval := Number(t[n..used]))) && Rest() == t[used..] && error == old(error)
    {
      hide Fields, Number, Head;
      ghost var t, n := Rest(), Head(modrm) - 1;
      var offset := DecodeAddress(op, mod, rm);
      DecodeRest(op, offset, t, n);
    }

    /** The displacement, if there is one, behind the first n of the bytes t. */
    method DecodeRest(op: UdOperand, offset: nat, ghost t: seq<Byte>, ghost n: nat)
      requires Valid() && (offset == 0 || offset == 8 || offset == 32)
      requires if |t| < n then error && Rest() == [] else Rest() == t[n..]
      modifies this`inpBufIndex, this`inpEnd, this`inpCtr, this`inpCurr, this`error, op`offset, op`lval
      ensures Valid() && op.offset == offset
      ensures if |t| < n + offset / 8 then error
              else
                && (offset != 0 ==> op.lval == Number(t[n..n + offset / 8]))
                && Rest() == t[n + offset / 8..] && error == old(error)
    {
      hide Number;
      ghost var k := offset / 8;
      if |t| >= n + k {
        assert t[n..][..k] == t[n..n + k] && t[n..][k..] == t[n + k..];
      }
      if offset != 0 {
        DecodeMemDisp(offset, op);
      } else {
        op.offset := 0;
      }
    }

    /** Base, index and scale, and the width of the displacement that follows. */
    method DecodeAddress(op: UdOperand, mod: nat, rm: nat) returns (offset: nat)
      requires Valid() && mod == modrm / 64 < 3 && rm == rex % 2 * 8 + modrm % 8
      modifies this`inpBufIndex, this`inpEnd, this`inpCtr, this`inpCurr, this`error
      modifies op`base, op`index, op`scale
      ensures Valid() && (offset == 0 || offset == 8 || offset == 32)
      ensures var t := old(Rest());
        var n := Head(modrm) - 1;
        if |t| < n then error && Rest() == []
        else
          && Rest() == t[n..] && error == old(error)
          && Raw(op.base, op.index, op.scale, offset, 0) ==
             Fields(rex / 2 % 2, rex % 2, modrm, if n == 0 then modrm else t[0])
    {
      offset := 0;
      op.base := RAX + rm;
      LowBits(rex % 2, modrm % 8);
      if mod == 1 {
        offset := 8;
      } else if mod == 2 {
        offset := 32;
      } else if mod == 0 && rm % 8 == 5 {
        op.base := RIP;
        offset := 32;
      }
      if rm % 8 == 4 {
        var _ := InpNext();
        offset := DecodeSib(op, mod, offset);
      } else {
        op.scale := NONE;
        op.index := NONE;
      }
    }

    lemma LowBits(high: nat, low: nat)
      requires low < 8
      ensures (high * 8 + low) % 8 == low
    {
    }

    /** Base, index and scale from the SIB byte, which is the current one; and the displacement's width,
        which may change. */
    method DecodeSib(op: UdOperand, mod: nat, width: nat) returns (offset: nat)
      requires Valid() && mod < 3 && width == (if mod == 0 then 0 else if mod == 1 then 8 else 32)
      modifies op`base, op`index, op`scale
      ensures var rexX, rexB, b, i := rex / 2 % 2, rex % 2, inpCurr % 8, 8 * (rex / 2 % 2) + inpCurr / 8 % 8;
        && offset == (if mod == 1 then 8 else if mod == 2 || b == 5 then 32 else 0)
        && op.base == (if b == 5 && mod == 0 then NONE else RAX + 8 * rexB + b)
        && op.index == (if i == 4 then NONE else RAX + i)
        && op.scale == (if i == 4 then 0 else ScaleOf(inpCurr / 64))
    {
      offset := width;
      op.base := RAX + (inpCurr % 8 + rex % 2 * 8);
      op.index := RAX + (inpCurr / 8 % 8 + rex / 2 % 2 * 8);
      if op.index == RSP {
        op.index := NONE;
        op.scale := NONE;
      } else {
        op.scale := PowerOf(inpCurr / 64) / 2 * 2;
        assert PowerOf(1) == 2 * PowerOf(0) && PowerOf(2) == 2 * PowerOf(1) && PowerOf(3) == 2 * PowerOf(2);
      }
      if op.base == RBP || op.base == R13 {
        if mod == 0 {
          op.base := NONE;
        }
        if mod == 1 {
          offset := 8;
        } else {
          offset := 32;
        }
      }
    }

    function PowerOf(shift: nat): nat {
      if shift == 0 then 1 else 2 * PowerOf(shift - 1)
    }
  }

  // ----- the address

  /** The segment prefixes that move an address. */
  datatype Segment = NoSegment | Fs | Gs

  /** The address an operand stands for: displacement, base, scaled index, then the segment's base, all
      in 64-bit words that wrap. */
  method ComputeEa(op: UdOperand, seg: Segment, reg: nat -> nat, adjustFs: nat -> nat, adjustGs: nat -> nat)
    returns (addr: nat)
    ensures var ea := Ea(Raw(op.base, op.index, op.scale, op.offset, op.lval), reg);
      addr == match seg
              case NoSegment => ea
              case Fs => adjustFs(ea)
              case Gs => adjustGs(ea)
  {
    hide Plus, Signed;
    addr := 0;
    match op.offset {
      case 8 => addr := Plus(addr, Signed(op.lval, 8));
      case 16 => addr := Plus(addr, Signed(op.lval, 16));
      case 32 => addr := Plus(addr, Signed(op.lval, 32));
      case 64 => addr := Plus(addr, Signed(op.lval, 64));
      case _ => NoDisplacement();
    }
    if op.base != NONE {
      addr := Plus(addr, reg(op.base));
    }
    if op.index != NONE {
      var regval := reg(op.index);
      if op.scale != NONE {
        addr := Plus(addr, regval * op.scale);
      } else {
        addr := Plus(addr, regval);
      }
    }
    match seg {
      case Fs => addr := adjustFs(addr);
      case Gs => addr := adjustGs(addr);
      case NoSegment =>
    }
  }

  /** The address of an operand object that holds the fields of m, as the decoder leaves it: without a
      displacement its value may be anything. */
  lemma OperandAddress(op: UdOperand, m: Mem, reg: nat -> nat)
    requires Encodable(m) && m.base != Rip && op.Is(RawOf(m))
    ensures Ea(Raw(op.base, op.index, op.scale, op.offset, op.lval), reg) == Address(m, reg)
  {
    hide Plus, Address, Signed, Unsigned, ScaleOf;
    EffectiveAddress(m, reg);
    assert op.offset == 0 ==> Displacement(RawOf(m)) == 0;
  }

  lemma NoDisplacement()
    ensures Plus(0, 0) == 0
  {
  }
}
