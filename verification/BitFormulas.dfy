/**
 The bit expressions of the instruction bodies, on bytes as the emulator has them: sign tests with
 & 0x80, overflow from xor, shifts, and SREG updated by a mask and shifted flags. Each formula is
 proved equal to the integer meaning in module Alu.
 */
module BitFormulas {
  import opened Bits
  import opened Alu
  import opened Decoder

  // ------------------------------------------------------------------ bytes as bit-vectors

  lemma Append(b: bv8, on: bool)
    requires b < 0x80
    ensures ((b << 1) | (if on then 1 else 0)) as int == 2 * b as int + Flag01(on)
  {
  }

  lemma BackToBits(b: bv8)
    ensures (b as int) as bv8 == b
    ensures b as int < 0x80 ==> b < 0x80
  {
  }

  /** Every byte is the value of some bit-vector, built from its top bit down. */
  lemma {:induction false} BitsOf(x: nat) returns (b: bv8)
    requires x < 0x100
    ensures b as int == x
  {
    if x == 0 {
      b := 0;
    } else {
      var high := BitsOf(x / 2);
      BackToBits(high);
      Append(high, x % 2 == 1);
      b := (high << 1) | (if x % 2 == 1 then 1 else 0);
    }
  }

  lemma ByteRoundTrip(x: Byte)
    ensures (x as bv8) as int == x
  {
    var b := BitsOf(x);
    BackToBits(b);
  }

  lemma HalfOf(b: bv8)
    ensures (b >> 1) as int == b as int / 2
    ensures b & 1 != 0 <==> b as int % 2 == 1
  {
  }

  lemma TopOf(b: bv8)
    ensures b & 0x80 != 0 <==> b as int >= 0x80
  {
  }

  lemma WithTop(b: bv8)
    requires b & 0x80 == 0
    ensures (b | 0x80) as int == b as int + 0x80
  {
  }

  lemma LowNibble(b: bv8)
    ensures (b & 0x0F) as int == b as int % 16
  {
  }

  /** `(x & 0x80) != 0`. */
  predicate Top(x: Byte)
    ensures Top(x) <==> x >= 0x80
  {
    ByteRoundTrip(x);
    TopOf(x as bv8);
    x as bv8 & 0x80 != 0
  }

  /** `x & 0x01`. */
  predicate Odd(x: Byte)
    ensures Odd(x) <==> x % 2 == 1
  {
    ByteRoundTrip(x);
    HalfOf(x as bv8);
    x as bv8 & 0x01 != 0
  }

  /** `x & 0x0F`. */
  function Nibble(x: Byte): (r: int)
    ensures r == x % 16
  {
    ByteRoundTrip(x);
    LowNibble(x as bv8);
    (x as bv8 & 0x0F) as int
  }

  /** `(w & 0x8000) != 0`, the top bit of the high byte. */
  predicate Top16(w: Word)
    ensures Top16(w) <==> w >= 0x8000
  {
    Top(Hi(w))
  }

  /** `((rd ^ res) & (rr ^ res) & 0x80) != 0`: the result has the sign of neither operand. */
  predicate AddOverflow(rd: Byte, rr: Byte, res: Byte)
    ensures AddOverflow(rd, rr, res) <==> Top(rd) != Top(res) && Top(rr) != Top(res)
  {
    (rd as bv8 ^ res as bv8) & (rr as bv8 ^ res as bv8) & 0x80 != 0
  }

  /** `((rd ^ rr) & (rd ^ res) & 0x80) != 0`: the operands differ in sign and the result from the first. */
  predicate SubOverflow(rd: Byte, rr: Byte, res: Byte)
    ensures SubOverflow(rd, rr, res) <==> Top(rd) != Top(rr) && Top(rd) != Top(res)
  {
    (rd as bv8 ^ rr as bv8) & (rd as bv8 ^ res as bv8) & 0x80 != 0
  }

  // ------------------------------------------------------------------ SREG as a byte of bits

  /** A flag as 0 or 1. */
  function F(b: bool): bv8 {
    if b then 1 else 0
  }

  function SregBits(f: Sreg): bv8 {
    F(f.c) | (F(f.z) << 1) | (F(f.n) << 2) | (F(f.v) << 3)
    | (F(f.s) << 4) | (F(f.h) << 5) | (F(f.t) << 6) | (F(f.i) << 7)
  }

  function BitsSreg(b: bv8): Sreg {
    Sreg(b & 0x01 != 0, b & 0x02 != 0, b & 0x04 != 0, b & 0x08 != 0,
         b & 0x10 != 0, b & 0x20 != 0, b & 0x40 != 0, b & 0x80 != 0)
  }

  lemma SregBitsRoundTrip(f: Sreg, b: bv8)
    ensures BitsSreg(SregBits(f)) == f && SregBits(BitsSreg(b)) == b
  {
  }

  /** Shift amounts one and up of a bit-vector peel off the flags as SregByte stacks them. */
  lemma Peel(b: bv8)
    ensures b as int == Shl1(b & 0x01 != 0, (b >> 1) as int)
  {
    HalfOf(b);
  }

  /** The bits are those of the byte that firmware sees. */
  lemma SregBitsAreByte(f: Sreg)
    ensures SregBits(f) as int == SregByte(f)
  {
    var b := SregBits(f);
    Peel(b);
    Peel(b >> 1);
    Peel(b >> 2);
    Peel(b >> 3);
    Peel(b >> 4);
    Peel(b >> 5);
    Peel(b >> 6);
    assert b >> 7 == F(f.i);
  }

  /** Masking and or-ing flags in, on the byte that firmware sees, is masking and or-ing on the flags. */
  lemma MaskedByte(f: Sreg, mask: bv8, flags: bv8)
    ensures SregByte(BitsSreg((SregBits(f) & mask) | flags)) == ((SregByte(f) as bv8 & mask) | flags) as int
  {
    var b := (SregBits(f) & mask) | flags;
    SregBitsAreByte(f);
    BackToBits(SregBits(f));
    SregBitsAreByte(BitsSreg(b));
    SregBitsRoundTrip(f, b);
    hide SregBits, BitsSreg, SregByte;
  }

  // SREG after an instruction, by the mask of what is kept.

  /** `(sreg & 0xC0) | ...`: T and I kept. */
  function SregC0(f: Sreg, s: bool, v: bool, n: bool, z: bool, c: bool, h: bool): (g: Sreg)
    ensures g == f.(s := s, v := v, n := n, z := z, c := c, h := h)
  {
    SregBitsRoundTrip(f, 0);
    BitsSreg((SregBits(f) & 0xC0) | (F(s) << 4) | (F(v) << 3) | (F(n) << 2) | (F(z) << 1) | F(c) | (F(h) << 5))
  }

  /** `(sreg & 0xE0) | ...`: H, T and I kept. */
  function SregE0(f: Sreg, s: bool, v: bool, n: bool, z: bool, c: bool): (g: Sreg)
    ensures g == f.(s := s, v := v, n := n, z := z, c := c)
  {
    BitsSreg((SregBits(f) & 0xE0) | (F(s) << 4) | (F(v) << 3) | (F(n) << 2) | (F(z) << 1) | F(c))
  }

  /** `(sreg & 0xE1) | ...`: C kept as well. */
  function SregE1(f: Sreg, s: bool, v: bool, n: bool, z: bool): (g: Sreg)
    ensures g == f.(s := s, v := v, n := n, z := z)
  {
    BitsSreg((SregBits(f) & 0xE1) | (F(s) << 4) | (F(v) << 3) | (F(n) << 2) | (F(z) << 1))
  }

  /** `(sreg & 0xE4) | ...`: the old N is kept and the new one or-ed to it, C and V go. */
  function SregE4(f: Sreg, n: bool, z: bool): (g: Sreg)
    ensures g == f.(s := n, v := false, n := f.n || n, z := z, c := false)
  {
    BitsSreg((SregBits(f) & 0xE4) | (F(n) << 4) | (F(n) << 2) | (F(z) << 1))
  }

  /** `(sreg & 0xFC) | ...`: all but Z and C kept. */
  function SregFC(f: Sreg, z: bool, c: bool): (g: Sreg)
    ensures g == f.(z := z, c := c)
  {
    BitsSreg((SregBits(f) & 0xFC) | (F(z) << 1) | F(c))
  }

  // ------------------------------------------------------------------ sums and differences

  /** ADD and ADC: the formulas give the exact carry, half carry, signed range and true sign. */
  function AddBits(rd: Byte, rr: Byte, ci: bool, prevZ: bool, f: Sreg): (o: ByteResult)
    ensures o == Sum(rd, rr, ci, prevZ, f)
  {
    hide Top, AddOverflow, Nibble;
    var result16: int := rd + rr + Flag01(ci);
    var result8 := result16 % 0x100;
    var h := Nibble(rd) + Nibble(rr) + Flag01(ci) > 0x0F;
    var v := AddOverflow(rd, rr, result8);
    var n := Top(result8);
    var z := prevZ && result8 == 0;
    ByteResult(result8, SregC0(f, n != v, v, n, z, result16 > 0xFF, h))
  }

  /** The wrapped difference as one of two cases. */
  lemma WrappedDifference(diff: int)
    requires -0x100 <= diff < 0x100
    ensures Wrap16(diff) == if diff < 0 then diff + 0x1_0000 else diff
    ensures diff % 0x100 == if diff < 0 then diff + 0x100 else diff
    ensures Wrap16(diff) % 0x100 == diff % 0x100
  {
  }

  lemma DifferenceSigns(rd: Byte, rr: Byte, b: int)
    requires 0 <= b <= 1
    ensures
      var diff, signed := rd - rr - b, Signed8(rd) - Signed8(rr) - b;
      var res: Byte := if diff < 0 then diff + 0x100 else diff;
      && SubOverflow(rd, rr, res) == !InSignedRange(signed)
      && (Top(res) != SubOverflow(rd, rr, res)) == (signed < 0)
  {
    hide Top, SubOverflow;
  }

  /** SUB, SBC, CP and CPC: the 16-bit wrapped difference gives the exact borrow and true sign. */
  function SubBits(rd: Byte, rr: Byte, ci: bool, prevZ: bool, f: Sreg): (o: ByteResult)
    ensures o == Difference(rd, rr, ci, prevZ, f)
  {
    var diff: int := rd - rr - Flag01(ci);
    WrappedDifference(diff);
    DifferenceSigns(rd, rr, Flag01(ci));
    hide Wrap16, SubOverflow, InSignedRange, Signed8, Top, Nibble;
    var result16 := Wrap16(diff);
    var result8 := result16 % 0x100;
    var h := Nibble(rd) < Nibble(rr) + Flag01(ci);
    var v := SubOverflow(rd, rr, result8);
    var n := Top(result8);
    var z := prevZ && result8 == 0;
    ByteResult(result8, SregC0(f, n != v, v, n, z, result16 > 0xFF, h))
  }

  /** `(x & 0x08) != 0`. */
  predicate Bit3(x: Byte)
    ensures Bit3(x) <==> x / 8 % 2 == 1
  {
    ByteRoundTrip(x);
    Bit3Of(x as bv8);
    x as bv8 & 0x08 != 0
  }

  lemma Bit3Of(b: bv8)
    ensures b & 0x08 != 0 <==> b as int / 8 % 2 == 1
  {
    HalfOf(b);
    HalfOf(b >> 1);
    HalfOf(b >> 2);
    HalfOf(b >> 3);
  }

  /** NEG: C says that the result is not zero, V that it is 0x80, H that bit 3 of either side is set. */
  function NegBits(rd: Byte, f: Sreg): (o: ByteResult)
    ensures o == Alu.Neg(rd, f)
  {
    hide Top, Bit3;
    var result8: Byte := if rd == 0 then 0 else 0x100 - rd;
    var h := Bit3(result8) || Bit3(rd);
    var v := rd == 0x80;
    var n := Top(result8);
    NegHalfBorrow(rd);
    NegMeaning(rd, f);
    ByteResult(result8, SregC0(f, n != v, v, n, result8 == 0, result8 != 0, h))
  }

  lemma Bit3OfNibble(high: nat, low: nat)
    requires low < 16
    ensures (16 * high + low) / 8 % 2 == 1 <==> low >= 8
  {
    assert (16 * high + low) / 8 == 2 * high + low / 8;
  }

  lemma NegHalfBorrow(rd: Byte)
    ensures rd > 0 ==> ((0x100 - rd) / 8 % 2 == 1 || rd / 8 % 2 == 1 <==> rd % 16 > 0)
  {
    var high, low := rd / 16, rd % 16;
    Bit3OfNibble(high, low);
    if low == 0 {
      Bit3OfNibble(16 - high, 0);
    } else {
      Bit3OfNibble(15 - high, 16 - low);
    }
  }

  lemma NegMeaning(rd: Byte, f: Sreg)
    ensures
      var o := Alu.Neg(rd, f);
      && o.value == (if rd == 0 then 0 else 0x100 - rd)
      && o.sreg.c == (rd != 0) && o.sreg.v == (rd == 0x80) && o.sreg.s == (0 < rd < 0x80)
      && o.sreg.h == (rd % 16 > 0)
  {
    assert Signed8(0) - Signed8(rd) == -Signed8(rd);
  }

  lemma DecMeaning(rd: Byte, f: Sreg)
    ensures
      var o := Alu.Dec(rd, f);
      && o.value == (if rd == 0 then 0xFF else rd - 1)
      && o.sreg.v == (rd == 0x80) && o.sreg.s == (rd == 0 || rd >= 0x80)
  {
    WrappedDifference(rd - 1);
    hide Wrap16;
    assert Signed8(1) == 1 && Flag01(false) == 0;
  }

  function IncBits(rd: Byte, f: Sreg): (o: ByteResult)
    ensures o == Alu.Inc(rd, f)
  {
    hide Top;
    var result8: Byte := if rd == 0xFF then 0 else rd + 1;
    var v := rd == 0x7F;
    var n := Top(result8);
    assert Alu.Inc(rd, f).sreg.v == v;
    ByteResult(result8, SregE1(f, n != v, v, n, result8 == 0))
  }

  function DecBits(rd: Byte, f: Sreg): (o: ByteResult)
    ensures o == Alu.Dec(rd, f)
  {
    hide Top;
    var result8: Byte := if rd == 0 then 0xFF else rd - 1;
    var v := rd == 0x80;
    var n := Top(result8);
    DecMeaning(rd, f);
    ByteResult(result8, SregE1(f, n != v, v, n, result8 == 0))
  }

  /** A word plus or minus a small constant, with its carry or borrow and the signed overflow. */
  lemma WideSteps(word: Word, k: Imm6)
    ensures
      var sum, diff := Wrap16(word + k), Wrap16(word - k);
      && (word + k >= 0x1_0000 <==> word >= 0x8000 && sum < 0x8000)
      && (Signed16(word) + k >= 0x8000 <==> word < 0x8000 && sum >= 0x8000)
      && (Signed16(word) + k < 0 <==> word >= 0x8000 && sum >= 0x8000)
      && (word < k <==> word < 0x8000 && diff >= 0x8000)
      && (Signed16(word) - k < -0x8000 <==> word >= 0x8000 && diff < 0x8000)
      && (Signed16(word) - k < 0 <==> word >= 0x8000 || diff >= 0x8000)
  {
    assert Wrap16(word + k) == if word + k >= 0x1_0000 then word + k - 0x1_0000 else word + k;
    assert Wrap16(word - k) == if word < k then word - k + 0x1_0000 else word - k;
  }

  /** ADIW and SBIW work from the sign bits of the word before and after. */
  function AdiwBits(word: Word, k: Imm6, f: Sreg): (o: WordResult)
    ensures o == Alu.Adiw(word, k, f)
  {
    WideSteps(word, k);
    hide Top16, Wrap16, Signed16;
    var result16 := Wrap16(word + k);
    var oldN, newN := Top16(word), Top16(result16);
    var v := !oldN && newN;
    WordResult(result16, SregE0(f, newN != v, v, newN, result16 == 0, oldN && !newN))
  }

  function SbiwBits(word: Word, k: Imm6, f: Sreg): (o: WordResult)
    ensures o == Alu.Sbiw(word, k, f)
  {
    WideSteps(word, k);
    hide Top16, Wrap16, Signed16;
    var result16 := Wrap16(word - k);
    var oldN, newN := Top16(word), Top16(result16);
    var v := oldN && !newN;
    WordResult(result16, SregE0(f, newN != v, v, newN, result16 == 0, !oldN && newN))
  }

  /** The multiplies: `result16` is the 16-bit product, shifted or not. */
  function ProductBits(result16: Word, f: Sreg): (o: WordResult)
    ensures o == ProductOut(result16, f)
  {
    hide Top16;
    WordResult(result16, SregFC(f, result16 == 0, Top16(result16)))
  }

  // ------------------------------------------------------------------ shifts and logic

  /** `rd >> 1`. */
  function Halved(rd: Byte): (r: Byte)
    ensures r == rd / 2
  {
    ByteRoundTrip(rd);
    HalfOf(rd as bv8);
    (rd as bv8 >> 1) as int
  }

  /** `(rd >> 1) | top`, with a bit for the place that became free. */
  function HalvedOr(rd: Byte, top: bv8): (r: Byte)
    requires top == 0x00 || top == 0x80
    ensures r == rd / 2 + if top == 0x80 then 0x80 else 0
  {
    ByteRoundTrip(rd);
    HalfOf(rd as bv8);
    WithTop(rd as bv8 >> 1);
    assert (rd as bv8 >> 1) | 0x00 == rd as bv8 >> 1;
    ((rd as bv8 >> 1) | top) as int
  }

  lemma SignBit(rd: Byte)
    ensures rd as bv8 & 0x80 == if Top(rd) then 0x80 else 0x00
  {
  }

  /** `(rd >> 1) | (rd & 0x80)` is signed halving. */
  function AsrBits(rd: Byte, f: Sreg): (o: ByteResult)
    ensures o == Alu.Asr(rd, f)
  {
    SignBit(rd);
    hide Top, Odd, HalvedOr;
    var c := Odd(rd);
    var result8 := HalvedOr(rd, rd as bv8 & 0x80);
    var n := Top(result8);
    var v := n != c;
    ByteResult(result8, SregE0(f, n != v, v, n, result8 == 0, c))
  }

  /** LSR clears N, so V is the bit shifted out and S too. */
  function LsrBits(rd: Byte, f: Sreg): (o: ByteResult)
    ensures o == Alu.Lsr(rd, f)
  {
    hide Odd, Halved;
    var c := Odd(rd);
    var result8 := Halved(rd);
    var n := false;
    var v := n != c;
    ByteResult(result8, SregE0(f, n != v, v, n, result8 == 0, c))
  }

  /** ROR takes the old carry into bit 7. */
  function RorBits(rd: Byte, f: Sreg): (o: ByteResult)
    ensures o == Alu.Ror(rd, f)
  {
    hide Top, Odd, HalvedOr;
    var newC := Odd(rd);
    var result8 := HalvedOr(rd, if f.c then 0x80 else 0x00);
    var n := Top(result8);
    var v := n != newC;
    ByteResult(result8, SregE0(f, n != v, v, n, result8 == 0, newC))
  }

  /** `(sreg & 0xE0) | ... | (1 << C)`. */
  function ComBits(rd: Byte, f: Sreg): (o: ByteResult)
    ensures o == Alu.Com(rd, f)
  {
    hide Top;
    var result8: Byte := 0xFF - rd;
    var n := Top(result8);
    ByteResult(result8, SregE0(f, n, false, n, result8 == 0, true))
  }

  /** `(rd << 4) | (rd >> 4)`. */
  function SwapBits(rd: Byte): (r: Byte)
    ensures r == Swapped(rd)
  {
    ByteRoundTrip(rd);
    SwapOf(rd as bv8);
    ((rd as bv8 << 4) | (rd as bv8 >> 4)) as int
  }

  lemma SwapOf(b: bv8)
    ensures ((b << 4) | (b >> 4)) as int == b as int % 16 * 16 + b as int / 16
  {
  }

  /** AND, ANDI, OR, ORI and EOR on the result byte. */
  function LogicBits(result8: Byte, f: Sreg): (o: ByteResult)
    ensures o == LogicOut(result8, f)
  {
    hide Top;
    ByteResult(result8, SregE4(f, Top(result8), result8 == 0))
  }

  /** `rd & rr`, `rd | rr` and `rd ^ rr`. */
  function Combined(op: BitOp, rd: Byte, rr: Byte): (r: Byte)
    ensures r == Zip(op, rd, rr, 8)
  {
    ByteRoundTrip(rd);
    ByteRoundTrip(rr);
    Pow2Values();
    CombineIsZip(op, rd as bv8, rr as bv8, 8);
    Combine(op, rd as bv8, rr as bv8) as int
  }

  function Combine(op: BitOp, a: bv8, b: bv8): bv8 {
    match op
    case AndOp => a & b
    case OrOp => a | b
    case XorOp => a ^ b
  }

  /** Halves and low bits, as numbers. */
  lemma CombineBits(op: BitOp, a: bv8, b: bv8)
    ensures Combine(op, a, b) as int / 2 == Combine(op, a >> 1, b >> 1) as int
    ensures (Combine(op, a, b) as int % 2 == 1) == Apply(op, a as int % 2 == 1, b as int % 2 == 1)
  {
    hide Combine, Apply;
    HalfOf(a);
    HalfOf(b);
    HalfOf(Combine(op, a, b));
    CombineShifts(op, a, b);
  }

  lemma CombineShifts(op: BitOp, a: bv8, b: bv8)
    ensures Combine(op, a, b) >> 1 == Combine(op, a >> 1, b >> 1)
    ensures (Combine(op, a, b) & 1 != 0) == Apply(op, a & 1 != 0, b & 1 != 0)
  {
  }

  lemma ZipStep(op: BitOp, x: nat, a: nat, b: nat, w: nat)
    requires w > 0 && x / 2 == Zip(op, a / 2, b / 2, w - 1)
    requires (x % 2 == 1) == Apply(op, a % 2 == 1, b % 2 == 1)
    ensures x == Zip(op, a, b, w)
  {
  }

  lemma CombineZero(op: BitOp)
    ensures Combine(op, 0, 0) as int == 0
  {
  }

  lemma {:induction false} CombineIsZip(op: BitOp, a: bv8, b: bv8, w: nat)
    requires a as int < Pow2(w) && b as int < Pow2(w)
    ensures Combine(op, a, b) as int == Zip(op, a as int, b as int, w)
  {
    hide Combine, Apply;
    if w == 0 {
      CombineZero(op);
    } else {
      HalfOf(a);
      HalfOf(b);
      CombineBits(op, a, b);
      CombineIsZip(op, a >> 1, b >> 1, w - 1);
      ZipStep(op, Combine(op, a, b) as int, a as int, b as int, w);
    }
  }
}
