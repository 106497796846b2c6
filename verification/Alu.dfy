/**
 The status register and what each arithmetic instruction computes. Every function here is written
 from the integer meaning of an instruction: exact sums and differences, signed ranges, true signs.
 The bit formulas of the emulator's instruction bodies are proved equal to these functions in
 module Emulation.
 */
module Alu {
  import opened Bits

  datatype Sreg = Sreg(c: bool, z: bool, n: bool, v: bool, s: bool, h: bool, t: bool, i: bool)

  const C_BIT := 0
  const Z_BIT := 1
  const S_BIT := 4
  const T_BIT := 6
  const I_BIT := 7

  /** A bit in front of a binary number: `2 * rest + bit`. */
  function Shl1(bit: bool, rest: nat): nat {
    2 * rest + Flag01(bit)
  }

  /** SREG as the byte that firmware sees at data address 0x5F. */
  function SregByte(f: Sreg): Byte {
    Shl1(f.c, Shl1(f.z, Shl1(f.n, Shl1(f.v, Shl1(f.s, Shl1(f.h, Shl1(f.t, Flag01(f.i))))))))
  }

  function ByteSreg(b: Byte): Sreg {
    var b1 := b / 2;
    var b2 := b1 / 2;
    var b3 := b2 / 2;
    var b4 := b3 / 2;
    var b5 := b4 / 2;
    var b6 := b5 / 2;
    Sreg(b % 2 == 1, b1 % 2 == 1, b2 % 2 == 1, b3 % 2 == 1,
         b4 % 2 == 1, b5 % 2 == 1, b6 % 2 == 1, b6 / 2 == 1)
  }

  lemma Shl1Inverse(bit: bool, rest: nat)
    ensures Shl1(bit, rest) / 2 == rest
    ensures (Shl1(bit, rest) % 2 == 1) == bit
  {
  }

  lemma Shl1Rebuilds(n: nat)
    ensures Shl1(n % 2 == 1, n / 2) == n
  {
  }

  lemma SregReadsBack(f: Sreg)
    ensures ByteSreg(SregByte(f)) == f
  {
    var s7 := Flag01(f.i);
    var s6 := Shl1(f.t, s7);
    var s5 := Shl1(f.h, s6);
    var s4 := Shl1(f.s, s5);
    var s3 := Shl1(f.v, s4);
    var s2 := Shl1(f.n, s3);
    var s1 := Shl1(f.z, s2);
    Shl1Inverse(f.t, s7);
    Shl1Inverse(f.h, s6);
    Shl1Inverse(f.s, s5);
    Shl1Inverse(f.v, s4);
    Shl1Inverse(f.n, s3);
    Shl1Inverse(f.z, s2);
    Shl1Inverse(f.c, s1);
  }

  lemma SregWritesBack(b: Byte)
    ensures SregByte(ByteSreg(b)) == b
  {
    var b1 := b / 2;
    var b2 := b1 / 2;
    var b3 := b2 / 2;
    var b4 := b3 / 2;
    var b5 := b4 / 2;
    var b6 := b5 / 2;
    assert Flag01(b6 / 2 == 1) == b6 / 2 by {
      assert b1 < 0x80 && b2 < 0x40 && b3 < 0x20;
      assert b4 < 0x10 && b5 < 8 && b6 < 4;
    }
    var f := ByteSreg(b);
    assert Shl1(f.t, Flag01(f.i)) == b6 by { Shl1Rebuilds(b6); }
    assert Shl1(f.h, b6) == b5 by { Shl1Rebuilds(b5); }
    assert Shl1(f.s, b5) == b4 by { Shl1Rebuilds(b4); }
    assert Shl1(f.v, b4) == b3 by { Shl1Rebuilds(b3); }
    assert Shl1(f.n, b3) == b2 by { Shl1Rebuilds(b2); }
    assert Shl1(f.z, b2) == b1 by { Shl1Rebuilds(b1); }
    assert Shl1(f.c, b1) == b by { Shl1Rebuilds(b); }
  }

  predicate GetFlag(f: Sreg, bit: nat)
    requires bit < 8
  {
    match bit
    case 0 => f.c
    case 1 => f.z
    case 2 => f.n
    case 3 => f.v
    case 4 => f.s
    case 5 => f.h
    case 6 => f.t
    case _ => f.i
  }

  function PutFlag(f: Sreg, bit: nat, on: bool): (r: Sreg)
    requires bit < 8
    ensures forall j: nat | j < 8 :: GetFlag(r, j) == if j == bit then on else GetFlag(f, j)
  {
    match bit
    case 0 => f.(c := on)
    case 1 => f.(z := on)
    case 2 => f.(n := on)
    case 3 => f.(v := on)
    case 4 => f.(s := on)
    case 5 => f.(h := on)
    case 6 => f.(t := on)
    case _ => f.(i := on)
  }

  datatype ByteResult = ByteResult(value: Byte, sreg: Sreg)

  predicate InSignedRange(x: int) {
    -0x80 <= x < 0x80
  }

  /** rd + rr + carry; `zeroSoFar` is the Z flag of the less significant bytes (true for ADD). */
  function Sum(rd: Byte, rr: Byte, carry: bool, zeroSoFar: bool, f: Sreg): ByteResult {
    var sum := rd + rr + Flag01(carry);
    var signed := Signed8(rd) + Signed8(rr) + Flag01(carry);
    var value := sum % 0x100;
    ByteResult(value, f.(c := sum >= 0x100, z := zeroSoFar && value == 0, n := value >= 0x80,
                  v := !InSignedRange(signed), s := signed < 0,
                  h := rd % 16 + rr % 16 + Flag01(carry) >= 16))
  }

  /** rd - rr - borrow. */
  function Difference(rd: Byte, rr: Byte, borrow: bool, zeroSoFar: bool, f: Sreg): ByteResult {
    var diff := rd - rr - Flag01(borrow);
    var signed := Signed8(rd) - Signed8(rr) - Flag01(borrow);
    var value := diff % 0x100;
    ByteResult(value, f.(c := diff < 0, z := zeroSoFar && value == 0, n := value >= 0x80,
                  v := !InSignedRange(signed), s := signed < 0,
                  h := rd % 16 < rr % 16 + Flag01(borrow)))
  }

  function Add(rd: Byte, rr: Byte, f: Sreg): ByteResult { Sum(rd, rr, false, true, f) }
  function Adc(rd: Byte, rr: Byte, f: Sreg): ByteResult { Sum(rd, rr, f.c, f.z, f) }
  function Sub(rd: Byte, rr: Byte, f: Sreg): ByteResult { Difference(rd, rr, false, true, f) }
  function Sbc(rd: Byte, rr: Byte, f: Sreg): ByteResult { Difference(rd, rr, f.c, f.z, f) }
  function Neg(rd: Byte, f: Sreg): ByteResult { Difference(0, rd, false, true, f) }

  /** INC and DEC keep C and H. */
  function Inc(rd: Byte, f: Sreg): ByteResult {
    var o := Sum(rd, 1, false, true, f);
    o.(sreg := o.sreg.(c := f.c, h := f.h))
  }

  function Dec(rd: Byte, f: Sreg): ByteResult {
    var o := Difference(rd, 1, false, true, f);
    o.(sreg := o.sreg.(c := f.c, h := f.h))
  }

  datatype WordResult = WordResult(value: Word, sreg: Sreg)

  function Signed16(x: Word): int {
    if x < 0x8000 then x else x - 0x1_0000
  }

  function WideFlags(value: Word, carry: bool, signed: int, f: Sreg): Sreg {
    f.(c := carry, z := value == 0, n := value >= 0x8000,
       v := !(-0x8000 <= signed < 0x8000), s := signed < 0)
  }

  /** ADIW and SBIW keep H. */
  function Adiw(word: Word, k: Byte, f: Sreg): WordResult
    requires k < 64
  {
    var value := Wrap16(word + k);
    WordResult(value, WideFlags(value, word + k >= 0x1_0000, Signed16(word) + k, f))
  }

  function Sbiw(word: Word, k: Byte, f: Sreg): WordResult
    requires k < 64
  {
    var value := Wrap16(word - k);
    WordResult(value, WideFlags(value, word < k, Signed16(word) - k, f))
  }

  /** Flags of LSR, ROR and ASR: V is N xor C, so S is C. */
  function ShiftOut(value: Byte, lost: bool, f: Sreg): ByteResult {
    var n := value >= 0x80;
    ByteResult(value, f.(c := lost, z := value == 0, n := n, v := n != lost, s := lost))
  }

  function Lsr(rd: Byte, f: Sreg): ByteResult { ShiftOut(rd / 2, rd % 2 == 1, f) }
  function Ror(rd: Byte, f: Sreg): ByteResult { ShiftOut(rd / 2 + 0x80 * Flag01(f.c), rd % 2 == 1, f) }

  /** Signed halving, rounding towards minus infinity. */
  function Asr(rd: Byte, f: Sreg): ByteResult {
    ShiftOut((Signed8(rd) / 2) % 0x100, rd % 2 == 1, f)
  }

  /**
   AND, ANDI, OR, ORI and EOR. Mask 0xE4 keeps the old N, into which the new one is or-ed, and
   drops C; V is cleared and S takes the sign of the result.
   */
  function LogicOut(value: Byte, f: Sreg): ByteResult {
    var n := value >= 0x80;
    ByteResult(value, f.(c := false, z := value == 0, n := f.n || n, v := false, s := n))
  }

  /** Bit by bit. */
  function Bitwise(op: BitOp, a: Byte, b: Byte): Byte {
    Pow2Values();
    Zip(op, a, b, 8)
  }

  function And8(a: Byte, b: Byte): Byte { Bitwise(AndOp, a, b) }
  function Or8(a: Byte, b: Byte): Byte { Bitwise(OrOp, a, b) }
  function Xor8(a: Byte, b: Byte): Byte { Bitwise(XorOp, a, b) }

  function Swapped(rd: Byte): Byte {
    rd % 16 * 16 + rd / 16
  }

  function Com(rd: Byte, f: Sreg): ByteResult {
    var value := 0xFF - rd;
    ByteResult(value, f.(c := true, z := value == 0, n := value >= 0x80, v := false, s := value >= 0x80))
  }

  function Times(a: int, b: int): int {
    a * b
  }

  /** The six multiplies: the low 16 bits of a product; C is bit 15 of what is stored. */
  function ProductOut(product: int, f: Sreg): WordResult {
    var value := Wrap16(product);
    WordResult(value, f.(c := value >= 0x8000, z := value == 0))
  }

  function Lo(w: Word): Byte { w % 0x100 }
  function Hi(w: Word): Byte { w / 0x100 }
  function Join(lo: Byte, hi: Byte): Word { lo + 0x100 * hi }

  lemma JoinSplits(lo: Byte, hi: Byte)
    ensures Lo(Join(lo, hi)) == lo && Hi(Join(lo, hi)) == hi
  {
  }
}
