/**
 The emulator in its imperative form: registers, flash and SRAM as arrays updated in place, the
 peripherals as objects, and one method per instruction with the emulator's own bit formulas. Every
 method is proved to compute the matching function of module Machine.
 */
module Emulation {
  import opened Bits
  import opened Alu
  import opened BitFormulas
  import opened Decoder
  import opened OpcodeTable
  import opened Interrupts
  import opened Machine
  import TimerZero
  import Uart

  /** The cache answers every word with the first matching row of the table. */
  ghost predicate DecodesLike(entries: array<Option<Row>>)
    reads entries
  {
    entries.Length == 0x1_0000 && forall i: nat :: i < 0x1_0000 ==> entries[i] == Lookup(i as Code)
  }

  method BuildCache() returns (cache: OpcodeCache)
    ensures fresh(cache) && fresh(cache.entries) && DecodesLike(cache.entries)
  {
    cache := new OpcodeCache(TABLE);
    CacheOfTable(cache);
  }

  lemma CacheOfTable(cache: OpcodeCache)
    requires cache.Valid() && cache.rows == TABLE
    ensures DecodesLike(cache.entries)
  {
  }

  /** Wrapping a product before a further wrap makes no difference. */
  lemma WrapTwice(x: int)
    ensures Wrap16(Wrap16(x)) == Wrap16(x) && Wrap16(2 * Wrap16(x)) == Wrap16(2 * x)
  {
    var q, r := x / 0x1_0000, x % 0x1_0000;
    var e := if r >= 0x8000 then 1 else 0;
    ModUnique(2 * r, 0x1_0000, e, 2 * r - 0x1_0000 * e);
    ModUnique(2 * x, 0x1_0000, 2 * q + e, 2 * r - 0x1_0000 * e);
  }

  lemma AllZero(a: array<Byte>)
    requires forall i :: 0 <= i < a.Length ==> a[i] == 0
    ensures a[..] == Zeros(a.Length)
  {
  }

  class Emulator {
    const r: array<Byte>
    const flash: array<Byte>
    const sram: array<Byte>
    const cache: OpcodeCache
    const timer: TimerZero.Timer0
    const irq: InterruptController
    const uart: Uart.Peripheral
    var pc: Word
    var sreg: Sreg
    var sp: Word
    var cycleCount: nat
    var extraCycles: Byte
    var memoryFault: bool
    /** A local variable of the execution loop in the emulator. */
    var nextUartPoll: nat

    ghost function Repr(): set<object> {
      {this, r, flash, sram, timer, irq, uart}
    }

    /** The cleared machine, before firmware is loaded. */
    constructor ()
      ensures Valid() && fresh(Repr()) && View() == Blank()
    {
      r := new Byte[32](_ => 0);
      flash := new Byte[FLASH_SIZE](_ => 0);
      sram := new Byte[SRAM_SIZE](_ => 0);
      var built := BuildCache();
      cache := built;
      timer := new TimerZero.Timer0();
      irq := new InterruptController();
      uart := new Uart.Peripheral();
      pc, sp, sreg := 0, DATA_SPACE_END, ByteSreg(0);
      cycleCount, extraCycles, memoryFault, nextUartPoll := 0, 0, false, 0;
      new;
      hide DecodesLike, ByteSreg, Zeros;
      AllZero(r);
      AllZero(flash);
      AllZero(sram);
    }

    ghost predicate Valid()
      reads this, cache.entries
    {
      && r.Length == 32 && flash.Length == FLASH_SIZE && sram.Length == SRAM_SIZE
      && r != flash && r != sram && flash != sram
      && DecodesLike(cache.entries)
    }

    ghost function View(): State
      requires Valid()
      reads this, r, flash, sram, timer, irq, uart, cache.entries
    {
      Core(r[..], pc, sreg, sp, cycleCount, extraCycles, flash[..], sram[..],
           timer.View(), uart.View(), irq.pending, memoryFault, nextUartPoll)
    }

    // ---------------------------------------------------------------- registers and data space

    method WriteReg(reg: Reg, value: Byte)
      requires Valid()
      modifies Repr()
      ensures Valid() && View() == PutReg(old(View()), reg, value)
    {
      r[reg] := value;
      assert r[..] == old(r[..])[reg := value];
    }

    function ReadRegWord(reg: Reg): Word
      requires r.Length == 32 && reg < 31
      reads this, r, cache, cache.entries
    {
      Join(r[reg], r[reg + 1])
    }

    method WriteRegWord(reg: Reg, value: Word)
      requires Valid() && reg < 31
      modifies Repr()
      ensures Valid() && View() == PutPair(old(View()), reg, value)
    {
      r[reg] := value % 0x100;
      r[reg + 1] := value / 0x100;
      assert r[..] == old(r[..])[reg := Lo(value)][reg + 1 := Hi(value)];
    }

    method ReadDataByte(addr: Word) returns (value: Byte)
      requires Valid()
      modifies Repr()
      ensures Valid() && Access(View(), value) == ReadData(old(View()), addr)
    {
      if addr < 0x20 {
        return r[addr];
      }
      if addr == 0x5D {
        return sp % 0x100;
      }
      if addr == 0x5E {
        return sp / 0x100;
      }
      if addr == 0x5F {
        return SregByte(sreg);
      }
      var timerValue := timer.Read(TimerOffset(addr));
      if timerValue.Some? {
        return timerValue.value;
      }
      if 0xC0 <= addr <= 0xC6 {
        value := uart.ReadReg(addr - 0xC0);
        return;
      }
      if 0x29 <= addr <= 0x2D {
        value := uart.ReadReg(addr - 0x20);
        return;
      }
      if addr > DATA_SPACE_END {
        memoryFault := true;
        return 0;
      }
      value := sram[addr];
    }

    method WriteDataByte(addr: Word, value: Byte)
      requires Valid()
      modifies Repr()
      ensures Valid() && View() == WriteData(old(View()), addr, value)
    {
      if addr < 0x20 {
        WriteReg(addr, value);
        return;
      }
      if addr == 0x5D {
        sp := sp - sp % 0x100 + value;
        return;
      }
      if addr == 0x5E {
        sp := sp % 0x100 + value * 0x100;
        return;
      }
      if addr == 0x5F {
        sreg := ByteSreg(value);
        return;
      }
      var taken := timer.Write(TimerOffset(addr), value);
      if taken {
        return;
      }
      if 0xC0 <= addr <= 0xC6 {
        uart.WriteReg(addr - 0xC0, value, irq);
        return;
      }
      if 0x29 <= addr <= 0x2D {
        uart.WriteReg(addr - 0x20, value, irq);
        return;
      }
      if addr > DATA_SPACE_END {
        memoryFault := true;
        return;
      }
      sram[addr] := value;
      assert sram[..] == old(sram[..])[addr := value];
    }

    method GetIoBit(io: Reg, bit: BitIndex) returns (on: bool)
      requires Valid()
      modifies Repr()
      ensures Valid() && var a := ReadIoBit(old(View()), io, bit); View() == a.m && on == Bit(a.value, bit)
    {
      hide ReadData, WriteData;
      var value := ReadDataByte(0x20 + io);
      on := Bit(value, bit);
    }

    method PutIoBit(io: Reg, bit: BitIndex, on: bool)
      requires Valid()
      modifies Repr()
      ensures Valid() && View() == WriteIoBit(old(View()), io, bit, on)
    {
      hide ReadData, WriteData;
      var value := ReadDataByte(0x20 + io);
      WriteDataByte(0x20 + io, SetBit8(value, bit, on));
    }

    // ---------------------------------------------------------------- stack

    method PushByteOn(value: Byte)
      requires Valid()
      modifies Repr()
      ensures Valid() && View() == PushByte(old(View()), value)
    {
      if sp < STACK_BOTTOM || sp > DATA_SPACE_END {
        memoryFault := true;
        return;
      }
      WriteDataByte(sp, value);
      sp := Wrap16(sp - 1);
    }

    method PopByteOff() returns (value: Byte)
      requires Valid()
      modifies Repr()
      ensures Valid() && Access(View(), value) == PopByte(old(View()))
    {
      if sp >= DATA_SPACE_END {
        memoryFault := true;
        return 0;
      }
      sp := sp + 1;
      value := ReadDataByte(sp);
    }

    method PushWordOn(value: Word)
      requires Valid()
      modifies Repr()
      ensures Valid() && View() == PushWord(old(View()), value)
    {
      hide PushByte;
      PushByteOn(value % 0x100);
      PushByteOn(value / 0x100);
    }

    method PopWordOff() returns (value: Word)
      requires Valid()
      modifies Repr()
      ensures Valid() && WordAccess(View(), value) == PopWord(old(View()))
    {
      hide PopByte;
      var hi := PopByteOff();
      var lo := PopByteOff();
      value := Join(lo, hi);
    }

    // ---------------------------------------------------------------- arithmetic

    method Store(d: Reg, o: ByteResult)
      requires Valid()
      modifies Repr()
      ensures Valid() && View() == PutOut(old(View()), d, o)
    {
      WriteReg(d, o.value);
      sreg := o.sreg;
    }

    method StorePair(x: Reg, o: WordResult)
      requires Valid() && x < 31
      modifies Repr()
      ensures Valid() && View() == PutWide(old(View()), x, o)
    {
      WriteRegWord(x, o.value);
      sreg := o.sreg;
    }

    method ExecuteADC(d: Reg, q: Reg)
      requires Valid()
      modifies Repr()
      ensures Valid() && View() == ExecuteArithmetic(old(View()), ArithmeticIns.Adc(d, q))
    {
      hide AddBits, Sum;
      Store(d, AddBits(r[d], r[q], sreg.c, sreg.z, sreg));
    }

    method ExecuteADD(d: Reg, q: Reg)
      requires Valid()
      modifies Repr()
      ensures Valid() && View() == ExecuteArithmetic(old(View()), ArithmeticIns.Add(d, q))
    {
      hide AddBits, Sum;
      Store(d, AddBits(r[d], r[q], false, true, sreg));
    }

    method ExecuteADIW(p: Pair, k: Imm6)
      requires Valid()
      modifies Repr()
      ensures Valid() && View() == ExecuteArithmetic(old(View()), ArithmeticIns.Adiw(p, k))
    {
      hide AdiwBits, Alu.Adiw;
      StorePair(p, AdiwBits(ReadRegWord(p), k, sreg));
    }

    method ExecuteSBIW(p: Pair, k: Imm6)
      requires Valid()
      modifies Repr()
      ensures Valid() && View() == ExecuteArithmetic(old(View()), ArithmeticIns.Sbiw(p, k))
    {
      hide SbiwBits, Alu.Sbiw;
      StorePair(p, SbiwBits(ReadRegWord(p), k, sreg));
    }

    method ExecuteDEC(d: Reg)
      requires Valid()
      modifies Repr()
      ensures Valid() && View() == ExecuteArithmetic(old(View()), ArithmeticIns.Dec(d))
    {
      hide DecBits, Alu.Dec;
      Store(d, DecBits(r[d], sreg));
    }

    method ExecuteINC(d: Reg)
      requires Valid()
      modifies Repr()
      ensures Valid() && View() == ExecuteArithmetic(old(View()), ArithmeticIns.Inc(d))
    {
      hide IncBits, Alu.Inc;
      Store(d, IncBits(r[d], sreg));
    }

    /** R1:R0 receive the low 16 bits of a product. */
    method StoreProduct(result16: Word)
      requires Valid()
      modifies Repr()
      ensures Valid() && View() == Product(old(View()), result16)
    {
      StorePair(0, ProductBits(result16, sreg));
    }

    method ExecuteMUL(d: Reg, q: Reg)
      requires Valid()
      modifies Repr()
      ensures Valid() && View() == ExecuteArithmetic(old(View()), ArithmeticIns.Mul(d, q))
    {
      hide Wrap16, Times;
      WrapTwice(Times(r[d], r[q]));
      StoreProduct(Wrap16(Times(r[d], r[q])));
    }

    method ExecuteMULS(d: Nibble, q: Nibble)
      requires Valid()
      modifies Repr()
      ensures Valid() && View() == ExecuteArithmetic(old(View()), ArithmeticIns.Muls(d, q))
    {
      hide Wrap16, Times, Signed8;
      WrapTwice(Times(Signed8(r[d + 16]), Signed8(r[q + 16])));
      StoreProduct(Wrap16(Times(Signed8(r[d + 16]), Signed8(r[q + 16]))));
    }

    method ExecuteMULSU(d: Reg, q: Reg)
      requires Valid()
      modifies Repr()
      ensures Valid() && View() == ExecuteArithmetic(old(View()), ArithmeticIns.Mulsu(d, q))
    {
      hide Wrap16, Times, Signed8;
      WrapTwice(Times(Signed8(r[d]), r[q]));
      StoreProduct(Wrap16(Times(Signed8(r[d]), r[q])));
    }

    method ExecuteFMUL(d: Reg, q: Reg)
      requires Valid()
      modifies Repr()
      ensures Valid() && View() == ExecuteArithmetic(old(View()), ArithmeticIns.Fmul(d, q))
    {
      hide Wrap16, Times;
      WrapTwice(Times(r[d], r[q]));
      var product: int := Wrap16(Times(r[d], r[q]));
      WrapTwice(2 * product);
      StoreProduct(Wrap16(2 * product));
    }

    method ExecuteFMULS(d: Reg, q: Reg)
      requires Valid()
      modifies Repr()
      ensures Valid() && View() == ExecuteArithmetic(old(View()), ArithmeticIns.Fmuls(d, q))
    {
      hide Wrap16, Times, Signed8;
      WrapTwice(Times(Signed8(r[d]), Signed8(r[q])));
      var product: int := Wrap16(Times(Signed8(r[d]), Signed8(r[q])));
      WrapTwice(2 * product);
      StoreProduct(Wrap16(2 * product));
    }

    method ExecuteFMULSU(d: Reg, q: Reg)
      requires Valid()
      modifies Repr()
      ensures Valid() && View() == ExecuteArithmetic(old(View()), ArithmeticIns.Fmulsu(d, q))
    {
      hide Wrap16, Times, Signed8;
      WrapTwice(Times(Signed8(r[d]), r[q]));
      var product: int := Wrap16(Times(Signed8(r[d]), r[q]));
      WrapTwice(2 * product);
      StoreProduct(Wrap16(2 * product));
    }

    method ExecuteNEG(d: Reg)
      requires Valid()
      modifies Repr()
      ensures Valid() && View() == ExecuteArithmetic(old(View()), ArithmeticIns.Neg(d))
    {
      hide NegBits, Alu.Neg;
      Store(d, NegBits(r[d], sreg));
    }

    method ExecuteSBC(d: Reg, q: Reg)
      requires Valid()
      modifies Repr()
      ensures Valid() && View() == ExecuteArithmetic(old(View()), ArithmeticIns.Sbc(d, q))
    {
      hide SubBits, Difference;
      Store(d, SubBits(r[d], r[q], sreg.c, sreg.z, sreg));
    }

    method ExecuteSBCI(d: Reg, k: Byte)
      requires Valid()
      modifies Repr()
      ensures Valid() && View() == ExecuteArithmetic(old(View()), ArithmeticIns.Sbci(d, k))
    {
      hide SubBits, Difference;
      Store(d, SubBits(r[d], k, sreg.c, sreg.z, sreg));
    }

    method ExecuteSUB(d: Reg, q: Reg)
      requires Valid()
      modifies Repr()
      ensures Valid() && View() == ExecuteArithmetic(old(View()), ArithmeticIns.Sub(d, q))
    {
      hide SubBits, Difference;
      Store(d, SubBits(r[d], r[q], false, true, sreg));
    }

    method ExecuteSUBI(d: Reg, k: Byte)
      requires Valid()
      modifies Repr()
      ensures Valid() && View() == ExecuteArithmetic(old(View()), ArithmeticIns.Subi(d, k))
    {
      hide SubBits, Difference;
      Store(d, SubBits(r[d], k, false, true, sreg));
    }

    method ExecuteCP(d: Reg, q: Reg)
      requires Valid()
      modifies Repr()
      ensures Valid() && View() == ExecuteArithmetic(old(View()), ArithmeticIns.Cp(d, q))
    {
      hide SubBits, Difference;
      sreg := SubBits(r[d], r[q], false, true, sreg).sreg;
    }

    method ExecuteCPC(d: Reg, q: Reg)
      requires Valid()
      modifies Repr()
      ensures Valid() && View() == ExecuteArithmetic(old(View()), ArithmeticIns.Cpc(d, q))
    {
      hide SubBits, Difference;
      sreg := SubBits(r[d], r[q], sreg.c, sreg.z, sreg).sreg;
    }

    method ExecuteCPI(d: Reg, k: Byte)
      requires Valid()
      modifies Repr()
      ensures Valid() && View() == ExecuteArithmetic(old(View()), ArithmeticIns.Cpi(d, k))
    {
      hide SubBits, Difference;
      sreg := SubBits(r[d], k, false, true, sreg).sreg;
    }

    // ---------------------------------------------------------------- logic and shifts

    method ExecuteASR(d: Reg)
      requires Valid()
      modifies Repr()
      ensures Valid() && View() == ExecuteLogic(old(View()), LogicIns.Asr(d))
    {
      hide AsrBits, Alu.Asr;
      Store(d, AsrBits(r[d], sreg));
    }

    method ExecuteAND(d: Reg, q: Reg)
      requires Valid()
      modifies Repr()
      ensures Valid() && View() == ExecuteLogic(old(View()), LogicIns.And(d, q))
    {
      hide LogicBits, LogicOut, Combined, Zip;
      Store(d, LogicBits(Combined(AndOp, r[d], r[q]), sreg));
    }

    method ExecuteOR(d: Reg, q: Reg)
      requires Valid()
      modifies Repr()
      ensures Valid() && View() == ExecuteLogic(old(View()), LogicIns.Or(d, q))
    {
      hide LogicBits, LogicOut, Combined, Zip;
      Store(d, LogicBits(Combined(OrOp, r[d], r[q]), sreg));
    }

    method ExecuteEOR(d: Reg, q: Reg)
      requires Valid()
      modifies Repr()
      ensures Valid() && View() == ExecuteLogic(old(View()), LogicIns.Eor(d, q))
    {
      hide LogicBits, LogicOut, Combined, Zip;
      Store(d, LogicBits(Combined(XorOp, r[d], r[q]), sreg));
    }

    method ExecuteANDI(d: Reg, k: Byte)
      requires Valid()
      modifies Repr()
      ensures Valid() && View() == ExecuteLogic(old(View()), LogicIns.Andi(d, k))
    {
      hide LogicBits, LogicOut, Combined, Zip;
      Store(d, LogicBits(Combined(AndOp, r[d], k), sreg));
    }

    method ExecuteORI(d: Reg, k: Byte)
      requires Valid()
      modifies Repr()
      ensures Valid() && View() == ExecuteLogic(old(View()), LogicIns.Ori(d, k))
    {
      hide LogicBits, LogicOut, Combined, Zip;
      Store(d, LogicBits(Combined(OrOp, r[d], k), sreg));
    }

    method ExecuteCOM(d: Reg)
      requires Valid()
      modifies Repr()
      ensures Valid() && View() == ExecuteLogic(old(View()), LogicIns.Com(d))
    {
      hide ComBits, Alu.Com;
      Store(d, ComBits(r[d], sreg));
    }

    method ExecuteSER(d: Reg)
      requires Valid()
      modifies Repr()
      ensures Valid() && View() == ExecuteLogic(old(View()), LogicIns.Ser(d))
    {
      WriteReg(d, 0xFF);
    }

    method ExecuteSWAP(d: Reg)
      requires Valid()
      modifies Repr()
      ensures Valid() && View() == ExecuteLogic(old(View()), LogicIns.Swap(d))
    {
      hide SwapBits, Swapped;
      WriteReg(d, SwapBits(r[d]));
    }

    method ExecuteLSR(d: Reg)
      requires Valid()
      modifies Repr()
      ensures Valid() && View() == ExecuteLogic(old(View()), LogicIns.Lsr(d))
    {
      hide LsrBits, Alu.Lsr;
      Store(d, LsrBits(r[d], sreg));
    }

    method ExecuteROR(d: Reg)
      requires Valid()
      modifies Repr()
      ensures Valid() && View() == ExecuteLogic(old(View()), LogicIns.Ror(d))
    {
      hide RorBits, Alu.Ror;
      Store(d, RorBits(r[d], sreg));
    }

    method ExecuteCPSE(d: Reg, q: Reg)
      requires Valid()
      modifies Repr()
      ensures Valid() && View() == ExecuteFlow(old(View()), FlowIns.Cpse(d, q))
    {
      hide SkipNext;
      if r[d] == r[q] {
        SkipNextInstruction();
        extraCycles := 1;
      }
    }

    // ---------------------------------------------------------------- data transfer

    method ExecuteMOV(d: Reg, q: Reg)
      requires Valid()
      modifies Repr()
      ensures Valid() && View() == ExecuteLogic(old(View()), LogicIns.Mov(d, q))
    {
      WriteReg(d, r[q]);
    }

    method ExecuteMOVW(d: Nibble, q: Nibble)
      requires Valid()
      modifies Repr()
      ensures Valid() && View() == ExecuteLogic(old(View()), LogicIns.Movw(d, q))
    {
      hide Lo, Hi, Join;
      ghost var word := PairValue(View(), 2 * q);
      JoinSplits(r[2 * q], r[2 * q + 1]);
      r[2 * d] := r[2 * q];
      r[2 * d + 1] := r[2 * q + 1];
      assert r[..] == old(r[..])[2 * d := Lo(word)][2 * d + 1 := Hi(word)];
    }

    method ExecuteLDI(d: Reg, k: Byte)
      requires Valid()
      modifies Repr()
      ensures Valid() && View() == ExecuteLogic(old(View()), LogicIns.Ldi(d, k))
    {
      WriteReg(d, k);
    }

    /** One method for the three pointers X, Y and Z. */
    method ExecuteLD(x: Pointer, d: Reg, mode: nat)
      requires Valid()
      modifies Repr()
      ensures Valid() && View() == LoadIndirect(old(View()), x, d, mode)
    {
      hide ReadData, PutPair, PutReg;
      var p: int := ReadRegWord(x);
      if mode == 2 {
        p := Wrap16(p - 1);
        WriteRegWord(x, p);
      }
      LoadFrom(d, p);
      if mode == 1 {
        p := Wrap16(p + 1);
        WriteRegWord(x, p);
      }
    }

    method LoadFrom(d: Reg, addr: Word)
      requires Valid()
      modifies Repr()
      ensures Valid() && View() == Load(old(View()), d, addr)
    {
      hide ReadData;
      var value := ReadDataByte(addr);
      WriteReg(d, value);
    }

    method ExecuteLDD(x: Pointer, d: Reg, q: Imm6)
      requires Valid()
      modifies Repr()
      ensures Valid() && View() == ExecuteData(old(View()), DataIns.Ldd(x, d, q))
    {
      hide ReadData;
      var value := ReadDataByte(Wrap16(ReadRegWord(x) + q));
      WriteReg(d, value);
    }

    method ExecuteLDS(d: Reg, addr: Word)
      requires Valid()
      modifies Repr()
      ensures Valid() && View() == ExecuteData(old(View()), DataIns.Lds(d, addr))
    {
      hide ReadData;
      var value := ReadDataByte(addr);
      WriteReg(d, value);
    }

    method ExecuteLPM(d: Reg, postInc: bool)
      requires Valid()
      modifies Repr()
      ensures Valid() && View() == ExecuteData(old(View()), DataIns.Lpm(d, postInc))
    {
      var z := ReadRegWord(Z);
      if z >= FLASH_SIZE {
        memoryFault := true;
        return;
      }
      WriteReg(d, flash[z]);
      if postInc {
        WriteRegWord(Z, z + 1);
      }
    }

    method ExecuteIN(d: Reg, a: Imm6)
      requires Valid()
      modifies Repr()
      ensures Valid() && View() == ExecuteData(old(View()), DataIns.In(d, a))
    {
      hide ReadData;
      var value := ReadDataByte(a + 0x20);
      WriteReg(d, value);
    }

    method ExecuteOUT(d: Reg, a: Imm6)
      requires Valid()
      modifies Repr()
      ensures Valid() && View() == ExecuteData(old(View()), DataIns.Out(d, a))
    {
      hide WriteData;
      WriteDataByte(a + 0x20, r[d]);
    }

    method ExecutePOP(d: Reg)
      requires Valid()
      modifies Repr()
      ensures Valid() && View() == ExecuteData(old(View()), DataIns.Pop(d))
    {
      hide PopByte;
      var value := PopByteOff();
      WriteReg(d, value);
    }

    method ExecutePUSH(d: Reg)
      requires Valid()
      modifies Repr()
      ensures Valid() && View() == ExecuteData(old(View()), DataIns.Push(d))
    {
      hide PushByte;
      PushByteOn(r[d]);
    }

    method ExecuteST(x: Pointer, d: Reg, mode: nat)
      requires Valid()
      modifies Repr()
      ensures Valid() && View() == StoreIndirect(old(View()), x, d, mode)
    {
      hide WriteData, PutPair;
      var p: int := ReadRegWord(x);
      if mode == 2 {
        p := Wrap16(p - 1);
        WriteRegWord(x, p);
      }
      WriteDataByte(p, r[d]);
      if mode == 1 {
        p := Wrap16(p + 1);
        WriteRegWord(x, p);
      }
    }

    method ExecuteSTD(x: Pointer, d: Reg, q: Imm6)
      requires Valid()
      modifies Repr()
      ensures Valid() && View() == ExecuteData(old(View()), DataIns.Std(x, d, q))
    {
      hide WriteData;
      WriteDataByte(Wrap16(ReadRegWord(x) + q), r[d]);
    }

    method ExecuteSTS(d: Reg, addr: Word)
      requires Valid()
      modifies Repr()
      ensures Valid() && View() == ExecuteData(old(View()), DataIns.Sts(d, addr))
    {
      hide WriteData;
      WriteDataByte(addr, r[d]);
    }

    method ExecuteSPM()
      requires Valid()
      modifies Repr()
      ensures Valid() && View() == ExecuteData(old(View()), DataIns.Spm)
    {
      var z := ReadRegWord(Z);
      if z + 1 >= FLASH_SIZE {
        return;
      }
      flash[z] := r[0];
      flash[z + 1] := r[1];
      assert flash[..] == old(flash[..])[z := old(r[0])][z + 1 := old(r[1])];
    }

    // ---------------------------------------------------------------- branches, calls and returns

    method ExecuteBRBC(k: int, s: BitIndex)
      requires Valid()
      modifies Repr()
      ensures Valid() && View() == ExecuteFlow(old(View()), FlowIns.Brbc(k, s))
    {
      if !GetFlag(sreg, s) {
        pc := Wrap16(pc + 2 * k);
        extraCycles := 1;
      }
    }

    method ExecuteBRBS(k: int, s: BitIndex)
      requires Valid()
      modifies Repr()
      ensures Valid() && View() == ExecuteFlow(old(View()), FlowIns.Brbs(k, s))
    {
      if GetFlag(sreg, s) {
        pc := Wrap16(pc + 2 * k);
        extraCycles := 1;
      }
    }

    method ExecuteRJMP(k: int)
      requires Valid()
      modifies Repr()
      ensures Valid() && View() == ExecuteFlow(old(View()), FlowIns.Rjmp(k))
    {
      pc := Wrap16(pc + 2 * k);
    }

    method ExecuteJMP(k: nat)
      requires Valid()
      modifies Repr()
      ensures Valid() && View() == ExecuteFlow(old(View()), FlowIns.Jmp(k))
    {
      pc := Wrap16(2 * k);
    }

    method ExecuteIJMP()
      requires Valid()
      modifies Repr()
      ensures Valid() && View() == ExecuteFlow(old(View()), FlowIns.Ijmp)
    {
      pc := Wrap16(2 * ReadRegWord(Z));
    }

    method ExecuteRCALL(k: int)
      requires Valid()
      modifies Repr()
      ensures Valid() && View() == ExecuteFlow(old(View()), FlowIns.Rcall(k))
    {
      hide PushWord;
      PushWordOn(pc);
      pc := Wrap16(pc + 2 * k);
    }

    method ExecuteCALL(k: nat)
      requires Valid()
      modifies Repr()
      ensures Valid() && View() == ExecuteFlow(old(View()), FlowIns.Call(k))
    {
      hide PushWord;
      PushWordOn(pc);
      pc := Wrap16(2 * k);
    }

    method ExecuteICALL()
      requires Valid()
      modifies Repr()
      ensures Valid() && View() == ExecuteFlow(old(View()), FlowIns.Icall)
    {
      hide PushWord;
      PushWordOn(pc);
      pc := Wrap16(2 * ReadRegWord(Z));
    }

    method ExecuteRET()
      requires Valid()
      modifies Repr()
      ensures Valid() && View() == ExecuteFlow(old(View()), FlowIns.Ret)
    {
      hide PopWord;
      pc := PopWordOff();
    }

    method ExecuteRETI()
      requires Valid()
      modifies Repr()
      ensures Valid() && View() == ExecuteFlow(old(View()), FlowIns.Reti)
    {
      hide PopWord;
      pc := PopWordOff();
      sreg := sreg.(i := true);
    }

    // ---------------------------------------------------------------- skips and bits

    method SkipNextInstruction()
      requires Valid()
      modifies Repr()
      ensures Valid() && View() == SkipNext(old(View()))
    {
      hide Lookup;
      if pc + 1 >= FLASH_SIZE {
        memoryFault := true;
        return;
      }
      var row := cache.entries[Join(flash[pc], flash[pc + 1])];
      if row.None? {
        memoryFault := true;
        return;
      }
      pc := Wrap16(pc + row.value.words * 2);
    }

    method ExecuteSBIC(io: Reg, b: BitIndex)
      requires Valid()
      modifies Repr()
      ensures Valid() && View() == ExecuteFlow(old(View()), FlowIns.Sbic(io, b))
    {
      hide ReadIoBit, SkipNext;
      var on := GetIoBit(io, b);
      if !on {
        SkipNextInstruction();
        extraCycles := 1;
      }
    }

    method ExecuteSBIS(io: Reg, b: BitIndex)
      requires Valid()
      modifies Repr()
      ensures Valid() && View() == ExecuteFlow(old(View()), FlowIns.Sbis(io, b))
    {
      hide ReadIoBit, SkipNext;
      var on := GetIoBit(io, b);
      if on {
        SkipNextInstruction();
        extraCycles := 1;
      }
    }

    method ExecuteSBRC(d: Reg, b: BitIndex)
      requires Valid()
      modifies Repr()
      ensures Valid() && View() == ExecuteFlow(old(View()), FlowIns.Sbrc(d, b))
    {
      hide SkipNext;
      if !Bit(r[d], b) {
        SkipNextInstruction();
        extraCycles := 1;
      }
    }

    method ExecuteSBRS(d: Reg, b: BitIndex)
      requires Valid()
      modifies Repr()
      ensures Valid() && View() == ExecuteFlow(old(View()), FlowIns.Sbrs(d, b))
    {
      hide SkipNext;
      if Bit(r[d], b) {
        SkipNextInstruction();
        extraCycles := 1;
      }
    }

    method ExecuteBSET(s: BitIndex)
      requires Valid()
      modifies Repr()
      ensures Valid() && View() == ExecuteLogic(old(View()), LogicIns.Bset(s))
    {
      sreg := PutFlag(sreg, s, true);
    }

    method ExecuteBCLR(s: BitIndex)
      requires Valid()
      modifies Repr()
      ensures Valid() && View() == ExecuteLogic(old(View()), LogicIns.Bclr(s))
    {
      sreg := PutFlag(sreg, s, false);
    }

    method ExecuteBLD(d: Reg, b: BitIndex)
      requires Valid()
      modifies Repr()
      ensures Valid() && View() == ExecuteLogic(old(View()), LogicIns.Bld(d, b))
    {
      if sreg.t {
        WriteReg(d, SetBit8(r[d], b, true));
      } else {
        WriteReg(d, SetBit8(r[d], b, false));
      }
    }

    method ExecuteBST(d: Reg, b: BitIndex)
      requires Valid()
      modifies Repr()
      ensures Valid() && View() == ExecuteLogic(old(View()), LogicIns.Bst(d, b))
    {
      if Bit(r[d], b) {
        sreg := PutFlag(sreg, T_BIT, true);
      } else {
        sreg := PutFlag(sreg, T_BIT, false);
      }
    }

    method ExecuteCBI(io: Reg, b: BitIndex)
      requires Valid()
      modifies Repr()
      ensures Valid() && View() == ExecuteData(old(View()), DataIns.Cbi(io, b))
    {
      hide WriteIoBit;
      PutIoBit(io, b, false);
    }

    method ExecuteSBI(io: Reg, b: BitIndex)
      requires Valid()
      modifies Repr()
      ensures Valid() && View() == ExecuteData(old(View()), DataIns.Sbi(io, b))
    {
      hide WriteIoBit;
      PutIoBit(io, b, true);
    }

    // ---------------------------------------------------------------- dispatch

    method PerformArithmetic(ins: ArithmeticIns)
      requires Valid()
      modifies Repr()
      ensures Valid() && View() == ExecuteArithmetic(old(View()), ins)
    {
      match ins
      case Add(d, r) => ExecuteADD(d, r);
      case Adc(d, r) => ExecuteADC(d, r);
      case Sub(d, r) => ExecuteSUB(d, r);
      case Sbc(d, r) => ExecuteSBC(d, r);
      case Subi(d, k) => ExecuteSUBI(d, k);
      case Sbci(d, k) => ExecuteSBCI(d, k);
      case Adiw(p, q) => ExecuteADIW(p, q);
      case Sbiw(p, q) => ExecuteSBIW(p, q);
      case Neg(d) => ExecuteNEG(d);
      case Inc(d) => ExecuteINC(d);
      case Dec(d) => ExecuteDEC(d);
      case Mul(d, r) => ExecuteMUL(d, r);
      case Muls(nd, nr) => ExecuteMULS(nd, nr);
      case Mulsu(d, r) => ExecuteMULSU(d, r);
      case Fmul(d, r) => ExecuteFMUL(d, r);
      case Fmuls(d, r) => ExecuteFMULS(d, r);
      case Fmulsu(d, r) => ExecuteFMULSU(d, r);
      case Cp(d, r) => ExecuteCP(d, r);
      case Cpc(d, r) => ExecuteCPC(d, r);
      case Cpi(d, k) => ExecuteCPI(d, k);
    }

    method PerformLogic(ins: LogicIns)
      requires Valid()
      modifies Repr()
      ensures Valid() && View() == ExecuteLogic(old(View()), ins)
    {
      match ins
      case And(d, r) => ExecuteAND(d, r);
      case Andi(d, k) => ExecuteANDI(d, k);
      case Or(d, r) => ExecuteOR(d, r);
      case Ori(d, k) => ExecuteORI(d, k);
      case Eor(d, r) => ExecuteEOR(d, r);
      case Com(d) => ExecuteCOM(d);
      case Ser(d) => ExecuteSER(d);
      case Swap(d) => ExecuteSWAP(d);
      case Lsr(d) => ExecuteLSR(d);
      case Ror(d) => ExecuteROR(d);
      case Asr(d) => ExecuteASR(d);
      case Mov(d, r) => ExecuteMOV(d, r);
      case Movw(nd, nr) => ExecuteMOVW(nd, nr);
      case Ldi(d, k) => ExecuteLDI(d, k);
      case Bset(s) => ExecuteBSET(s);
      case Bclr(s) => ExecuteBCLR(s);
      case Bld(d, b) => ExecuteBLD(d, b);
      case Bst(d, b) => ExecuteBST(d, b);
    }

    method PerformData(ins: DataIns)
      requires Valid()
      modifies Repr()
      ensures Valid() && View() == ExecuteData(old(View()), ins)
    {
      match ins
      case Ld(x, d, mode) => ExecuteLD(x, d, mode);
      case Ldd(x, d, q) => ExecuteLDD(x, d, q);
      case Lds(d, addr) => ExecuteLDS(d, addr);
      case St(x, d, mode) => ExecuteST(x, d, mode);
      case Std(x, d, q) => ExecuteSTD(x, d, q);
      case Sts(d, addr) => ExecuteSTS(d, addr);
      case Lpm(d, postInc) => ExecuteLPM(d, postInc);
      case Spm => ExecuteSPM();
      case In(d, a) => ExecuteIN(d, a);
      case Out(d, a) => ExecuteOUT(d, a);
      case Pop(d) => ExecutePOP(d);
      case Push(d) => ExecutePUSH(d);
      case Cbi(io, b) => ExecuteCBI(io, b);
      case Sbi(io, b) => ExecuteSBI(io, b);
    }

    method PerformFlow(ins: FlowIns)
      requires Valid()
      modifies Repr()
      ensures Valid() && View() == ExecuteFlow(old(View()), ins)
    {
      match ins
      case Cpse(d, r) => ExecuteCPSE(d, r);
      case Brbc(off, s) => ExecuteBRBC(off, s);
      case Brbs(off, s) => ExecuteBRBS(off, s);
      case Rjmp(off) => ExecuteRJMP(off);
      case Jmp(target) => ExecuteJMP(target);
      case Ijmp => ExecuteIJMP();
      case Rcall(off) => ExecuteRCALL(off);
      case Call(target) => ExecuteCALL(target);
      case Icall => ExecuteICALL();
      case Ret => ExecuteRET();
      case Reti => ExecuteRETI();
      case Sbic(io, b) => ExecuteSBIC(io, b);
      case Sbis(io, b) => ExecuteSBIS(io, b);
      case Sbrc(d, b) => ExecuteSBRC(d, b);
      case Sbrs(d, b) => ExecuteSBRS(d, b);
      case Nop =>
    }

    method ExecuteInstruction(ins: Ins)
      requires Valid()
      modifies Repr()
      ensures Valid() && View() == Execute(old(View()), ins)
    {
      match ins
      case Arithmetic(a) => PerformArithmetic(a);
      case Logic(l) => PerformLogic(l);
      case Data(t) => PerformData(t);
      case Flow(f) => PerformFlow(f);
    }

    // ---------------------------------------------------------------- interrupts and the main loop

    /** Dispatches the pending vector with the lowest number when I is set. */
    method InterruptService() returns (serviced: Option<Vector>)
      requires Valid()
      modifies Repr()
      ensures Valid() && Machine.Serviced(View(), serviced) == Service(old(View()))
    {
      hide PushWord, Clear, HighestPending;
      if !sreg.i {
        return None;
      }
      var highest := irq.Highest();
      if highest == 0 {
        return None;
      }
      var v: Vector := highest;
      var vecAddr := VectorAddr(v);
      assert vecAddr + 1 < FLASH_SIZE;
      var vecWord := Join(flash[vecAddr], flash[vecAddr + 1]);
      irq.ClearVector(v);
      if vecWord == 0xFFFF {
        return None;
      }
      PushWordOn(pc);
      sreg := sreg.(i := false);
      pc := vecAddr;
      return Some(v);
    }

    method RaiseTimerRequests()
      requires Valid()
      modifies Repr()
      ensures Valid() && View() == RaiseTimers(old(View()))
    {
      ghost var t := timer.View();
      ghost var ovf := if TimerZero.Pending(t, TimerZero.TOV0) then [TIMER0_OVF] else [];
      ghost var compA := ovf + (if TimerZero.Pending(t, TimerZero.OCF0A) then [TIMER0_COMPA] else []);
      RaiseAllSplits(irq.pending, [], TIMER0_OVF);
      RaiseAllSplits(irq.pending, ovf, TIMER0_COMPA);
      RaiseAllSplits(irq.pending, compA, TIMER0_COMPB);
      assert [] + [TIMER0_OVF] == [TIMER0_OVF] && ovf + [] == ovf && compA + [] == compA;
      if TimerZero.Pending(timer.View(), TimerZero.TOV0) {
        irq.RaiseVector(TIMER0_OVF);
      }
      if TimerZero.Pending(timer.View(), TimerZero.OCF0A) {
        irq.RaiseVector(TIMER0_COMPA);
      }
      if TimerZero.Pending(timer.View(), TimerZero.OCF0B) {
        irq.RaiseVector(TIMER0_COMPB);
      }
    }

    method PollUart()
      requires Valid()
      modifies Repr()
      ensures Valid() && View() == Machine.Poll(old(View()))
    {
      if cycleCount >= nextUartPoll {
        uart.PollRx(irq);
        nextUartPoll := cycleCount + POLL_INTERVAL;
      }
    }

    /** Fetches one instruction and leaves pc past what was fetched. */
    method FetchNext() returns (ok: bool, ins: Ins, cycles: Cycles)
      requires Valid()
      modifies Repr()
      ensures Valid()
      ensures
        match Fetch(old(View()))
        case Some(f) => ok && f == Fetched(View(), ins, cycles)
        case None => !ok && View() == FailedFetch(old(View()))
    {
      hide Lookup, Operands;
      ok, ins, cycles := false, Flow(Nop), 1;
      if pc + 1 >= FLASH_SIZE {
        return;
      }
      var instruction := Join(flash[pc], flash[pc + 1]) as Code;
      pc := pc + 2;
      var row := cache.entries[instruction as int];
      if row.None? {
        return;
      }
      var op := row.value;
      var extra: Word := 0;
      if op.words == 2 {
        if pc + 1 >= FLASH_SIZE {
          return;
        }
        extra := Join(flash[pc], flash[pc + 1]);
        pc := pc + 2;
      }
      return true, Operands(op.op, op.fmt, instruction, extra), op.cycles;
    }

    /** Fetch, decode, execute and tick; false when the emulator stops on an error. */
    method ExecuteNext() returns (ok: bool)
      requires Valid()
      modifies Repr()
      ensures Valid()
      ensures Instruction(old(View())) == if ok then Running(View()) else Halted(View())
    {
      hide Fetch, FailedFetch, Execute;
      var ins, cycles;
      ok, ins, cycles := FetchNext();
      if !ok {
        return;
      }
      memoryFault := false;
      extraCycles := 0;
      ExecuteInstruction(ins);
      if memoryFault {
        return false;
      }
      var totalCycles := cycles + extraCycles;
      cycleCount := cycleCount + totalCycles;
      timer.Tick(totalCycles);
      return true;
    }

    /** One iteration of the execution loop. */
    method Iterate() returns (ok: bool)
      requires Valid()
      modifies Repr()
      ensures Valid()
      ensures Step(old(View())) == if ok then Running(View()) else Halted(View())
    {
      hide Machine.Poll, RaiseTimers, Service, Instruction;
      PollUart();
      RaiseTimerRequests();
      var serviced := InterruptService();
      if serviced.Some? {
        var bit := TimerBit(serviced.value);
        if bit.Some? {
          timer.AckFlag(bit.value);
        }
        return true;
      }
      ok := ExecuteNext();
    }

    /**
     The execution loop. The stop flag is seen after |inputs| iterations; inputs[i] are the bytes
     that the terminal injects before iteration i. True on a clean stop, false on an error.
     */
    method ExecuteProgram(inputs: seq<seq<Byte>>) returns (ok: bool)
      requires Valid()
      modifies Repr()
      ensures Valid()
      ensures Run(Reset(old(View())), inputs) == if ok then Running(View()) else Halted(View())
    {
      hide Step;
      timer.Reset();
      irq.Reset();
      nextUartPoll := 0;
      ghost var start := View();
      var i := 0;
      while i < |inputs|
        invariant Valid() && 0 <= i <= |inputs|
        invariant Run(start, inputs) == Run(View(), inputs[i..])
      {
        var bytes := inputs[i];
        ghost var before := View();
        InjectBytes(bytes);
        ok := Iterate();
        assert inputs[i..][0] == bytes && inputs[i..][1..] == inputs[i + 1..];
        if !ok {
          return false;
        }
        i := i + 1;
      }
      return true;
    }

    method InjectBytes(bytes: seq<Byte>)
      requires Valid()
      modifies Repr()
      ensures Valid() && View() == InjectAll(old(View()), bytes)
    {
      var i := 0;
      while i < |bytes|
        invariant Valid() && 0 <= i <= |bytes|
        invariant InjectAll(old(View()), bytes) == InjectAll(View(), bytes[i..])
      {
        uart.InjectRx(bytes[i]);
        assert bytes[i..][1..] == bytes[i + 1..];
        i := i + 1;
      }
    }
  }
}
