/**
 Assembled words: for every instruction, the word built from its opcode and operands by the bit
 layouts of the instruction set reads back as that instruction with those operands.
 */
module WordReadings {
  import opened Bits
  import opened OpcodeTable
  import opened Decoder
  import opened OpcodeMap
  import opened DecoderLaws
  import opened OperandLaws
  import opened Instructions

  // ------------------------------------------------------------------ arithmetic

  lemma AddReads(d: Field5, r: Field5)
    ensures Reads(AssembleRdRr(0x0C00, d, r), Ins.Arithmetic(ArithmeticIns.Add(No(d), No(r))), 1)
  {
    RdRrFields(0x0C00, d, r);
    hide AssembleRdRr, RegD, RegR;
  }

  lemma AdcReads(d: Field5, r: Field5)
    ensures Reads(AssembleRdRr(0x1C00, d, r), Ins.Arithmetic(ArithmeticIns.Adc(No(d), No(r))), 1)
  {
    RdRrFields(0x1C00, d, r);
    hide AssembleRdRr, RegD, RegR;
  }

  lemma SubReads(d: Field5, r: Field5)
    ensures Reads(AssembleRdRr(0x1800, d, r), Ins.Arithmetic(ArithmeticIns.Sub(No(d), No(r))), 1)
  {
    RdRrFields(0x1800, d, r);
    hide AssembleRdRr, RegD, RegR;
  }

  lemma SbcReads(d: Field5, r: Field5)
    ensures Reads(AssembleRdRr(0x0800, d, r), Ins.Arithmetic(ArithmeticIns.Sbc(No(d), No(r))), 1)
  {
    RdRrFields(0x0800, d, r);
    hide AssembleRdRr, RegD, RegR;
  }

  lemma CpReads(d: Field5, r: Field5)
    ensures Reads(AssembleRdRr(0x1400, d, r), Ins.Arithmetic(ArithmeticIns.Cp(No(d), No(r))), 1)
  {
    RdRrFields(0x1400, d, r);
    hide AssembleRdRr, RegD, RegR;
  }

  lemma CpcReads(d: Field5, r: Field5)
    ensures Reads(AssembleRdRr(0x0400, d, r), Ins.Arithmetic(ArithmeticIns.Cpc(No(d), No(r))), 1)
  {
    RdRrFields(0x0400, d, r);
    hide AssembleRdRr, RegD, RegR;
  }

  lemma SubiReads(d: Field4, k: Field8)
    ensures Reads(AssembleRdK8(0x5000, d, k), Ins.Arithmetic(ArithmeticIns.Subi(High(d), k as int)), 1)
  {
    RdK8Fields(0x5000, d, k);
    hide AssembleRdK8, HighD, Imm8;
  }

  lemma SbciReads(d: Field4, k: Field8)
    ensures Reads(AssembleRdK8(0x4000, d, k), Ins.Arithmetic(ArithmeticIns.Sbci(High(d), k as int)), 1)
  {
    RdK8Fields(0x4000, d, k);
    hide AssembleRdK8, HighD, Imm8;
  }

  lemma CpiReads(d: Field4, k: Field8)
    ensures Reads(AssembleRdK8(0x3000, d, k), Ins.Arithmetic(ArithmeticIns.Cpi(High(d), k as int)), 1)
  {
    RdK8Fields(0x3000, d, k);
    hide AssembleRdK8, HighD, Imm8;
  }

  lemma NegReads(d: Field5)
    ensures Reads(AssembleRd(0x9401, d), Ins.Arithmetic(ArithmeticIns.Neg(No(d))), 1)
  {
    RdFields(0x9401, d);
    hide AssembleRd, RegD;
  }

  lemma IncReads(d: Field5)
    ensures Reads(AssembleRd(0x9403, d), Ins.Arithmetic(ArithmeticIns.Inc(No(d))), 1)
  {
    RdFields(0x9403, d);
    hide AssembleRd, RegD;
  }

  lemma DecReads(d: Field5)
    ensures Reads(AssembleRd(0x940A, d), Ins.Arithmetic(ArithmeticIns.Dec(No(d))), 1)
  {
    RdFields(0x940A, d);
    hide AssembleRd, RegD;
  }

  lemma AdiwReads(p: Field2, k: Field6)
    ensures Reads(AssembleRd06K6(0x9600, p, k), Ins.Arithmetic(ArithmeticIns.Adiw(PairNo(p), k as int)), 2)
  {
    Rd06K6Fields(0x9600, p, k);
    hide AssembleRd06K6, PairD, K6;
  }

  lemma SbiwReads(p: Field2, k: Field6)
    ensures Reads(AssembleRd06K6(0x9700, p, k), Ins.Arithmetic(ArithmeticIns.Sbiw(PairNo(p), k as int)), 2)
  {
    Rd06K6Fields(0x9700, p, k);
    hide AssembleRd06K6, PairD, K6;
  }

  lemma MulReads(d: Field5, r: Field5)
    ensures Reads(AssembleRdRr(0x9C00, d, r), Ins.Arithmetic(ArithmeticIns.Mul(No(d), No(r))), 2)
  {
    RdRrFields(0x9C00, d, r);
    hide AssembleRdRr, RegD, RegR;
  }

  lemma MulsReads(d: Field4, r: Field4)
    ensures Reads(AssembleRd06Rr06(0x0200, d, r), Ins.Arithmetic(ArithmeticIns.Muls(d as int, r as int)), 2)
  {
    Rd06Rr06Fields(0x0200, d, r);
    hide AssembleRd06Rr06, NibbleD, NibbleR;
  }

  lemma MulsuReads(d: Field3, r: Field3)
    ensures Reads(AssembleRdRrMpy(0x0300, d, r), Ins.Arithmetic(ArithmeticIns.Mulsu(16 + d as int, 16 + r as int)), 2)
  {
    RdRrMpyFields(0x0300, d, r);
    hide AssembleRdRrMpy, MulD, MulR;
  }

  lemma FmulReads(d: Field3, r: Field3)
    ensures Reads(AssembleRdRrMpy(0x0308, d, r), Ins.Arithmetic(ArithmeticIns.Fmul(16 + d as int, 16 + r as int)), 2)
  {
    RdRrMpyFields(0x0308, d, r);
    hide AssembleRdRrMpy, MulD, MulR;
  }

  lemma FmulsReads(d: Field3, r: Field3)
    ensures Reads(AssembleRdRrMpy(0x0380, d, r), Ins.Arithmetic(ArithmeticIns.Fmuls(16 + d as int, 16 + r as int)), 2)
  {
    RdRrMpyFields(0x0380, d, r);
    hide AssembleRdRrMpy, MulD, MulR;
  }

  lemma FmulsuReads(d: Field3, r: Field3)
    ensures Reads(AssembleRdRrMpy(0x0388, d, r), Ins.Arithmetic(ArithmeticIns.Fmulsu(16 + d as int, 16 + r as int)), 2)
  {
    RdRrMpyFields(0x0388, d, r);
    hide AssembleRdRrMpy, MulD, MulR;
  }

  // ------------------------------------------------------------------ logic, shifts and moves

  lemma AndReads(d: Field5, r: Field5)
    ensures Reads(AssembleRdRr(0x2000, d, r), Ins.Logic(LogicIns.And(No(d), No(r))), 1)
  {
    RdRrFields(0x2000, d, r);
    hide AssembleRdRr, RegD, RegR;
  }

  lemma EorReads(d: Field5, r: Field5)
    ensures Reads(AssembleRdRr(0x2400, d, r), Ins.Logic(LogicIns.Eor(No(d), No(r))), 1)
  {
    RdRrFields(0x2400, d, r);
    hide AssembleRdRr, RegD, RegR;
  }

  lemma OrReads(d: Field5, r: Field5)
    ensures Reads(AssembleRdRr(0x2800, d, r), Ins.Logic(LogicIns.Or(No(d), No(r))), 1)
  {
    RdRrFields(0x2800, d, r);
    hide AssembleRdRr, RegD, RegR;
  }

  lemma AndiReads(d: Field4, k: Field8)
    ensures Reads(AssembleRdK8(0x7000, d, k), Ins.Logic(LogicIns.Andi(High(d), k as int)), 1)
  {
    RdK8Fields(0x7000, d, k);
    hide AssembleRdK8, HighD, Imm8;
  }

  lemma OriReads(d: Field4, k: Field8)
    ensures Reads(AssembleRdK8(0x6000, d, k), Ins.Logic(LogicIns.Ori(High(d), k as int)), 1)
  {
    RdK8Fields(0x6000, d, k);
    hide AssembleRdK8, HighD, Imm8;
  }

  lemma LsrReads(d: Field5)
    ensures Reads(AssembleRd(0x9406, d), Ins.Logic(LogicIns.Lsr(No(d))), 1)
  {
    RdFields(0x9406, d);
    hide AssembleRd, RegD;
  }

  lemma AsrReads(d: Field5)
    ensures Reads(AssembleRd(0x9405, d), Ins.Logic(LogicIns.Asr(No(d))), 1)
  {
    RdFields(0x9405, d);
    hide AssembleRd, RegD;
  }

  lemma RorReads(d: Field5)
    ensures Reads(AssembleRd(0x9407, d), Ins.Logic(LogicIns.Ror(No(d))), 1)
  {
    RdFields(0x9407, d);
    hide AssembleRd, RegD;
  }

  lemma ComReads(d: Field5)
    ensures Reads(AssembleRd(0x9400, d), Ins.Logic(LogicIns.Com(No(d))), 1)
  {
    RdFields(0x9400, d);
    hide AssembleRd, RegD;
  }

  lemma SwapReads(d: Field5)
    ensures Reads(AssembleRd(0x9402, d), Ins.Logic(LogicIns.Swap(No(d))), 1)
  {
    RdFields(0x9402, d);
    hide AssembleRd, RegD;
  }

  lemma MovReads(d: Field5, r: Field5)
    ensures Reads(AssembleRdRr(0x2C00, d, r), Ins.Logic(LogicIns.Mov(No(d), No(r))), 1)
  {
    RdRrFields(0x2C00, d, r);
    hide AssembleRdRr, RegD, RegR;
  }

  lemma MovwReads(d: Field4, r: Field4)
    ensures Reads(AssembleRd06Rr06(0x0100, d, r), Ins.Logic(LogicIns.Movw(d as int, r as int)), 1)
  {
    Rd06Rr06Fields(0x0100, d, r);
    hide AssembleRd06Rr06, NibbleD, NibbleR;
  }

  lemma LdiReads(d: Field4, k: Field8)
    ensures Reads(AssembleRdK8(0xE000, d, k), Ins.Logic(LogicIns.Ldi(High(d), k as int)), 1)
  {
    RdK8Fields(0xE000, d, k);
    hide AssembleRdK8, HighD, Imm8;
  }

  lemma BsetReads(s: Field3)
    ensures Reads(AssembleBitOnly(0x9408, s), Ins.Logic(LogicIns.Bset(s as int)), 1)
  {
    BitOnlyFields(0x9408, s);
    hide AssembleBitOnly, BitMid;
  }

  lemma BclrReads(s: Field3)
    ensures Reads(AssembleBitOnly(0x9488, s), Ins.Logic(LogicIns.Bclr(s as int)), 1)
  {
    BitOnlyFields(0x9488, s);
    hide AssembleBitOnly, BitMid;
  }

  lemma BldReads(d: Field5, b: Field3)
    ensures Reads(AssembleRdB(0xF800, d, b), Ins.Logic(LogicIns.Bld(No(d), b as int)), 1)
  {
    RdBFields(0xF800, d, b);
    hide AssembleRdB, RegD, BitLow;
  }

  lemma BstReads(d: Field5, b: Field3)
    ensures Reads(AssembleRdB(0xFA00, d, b), Ins.Logic(LogicIns.Bst(No(d), b as int)), 1)
  {
    RdBFields(0xFA00, d, b);
    hide AssembleRdB, RegD, BitLow;
  }

  // ------------------------------------------------------------------ loads, stores and I/O

  lemma LdXReads(d: Field5)
    ensures Reads(AssembleRd(0x900C, d), Ins.Data(DataIns.Ld(26, No(d), 0)), 2)
  {
    RdFields(0x900C, d);
    hide AssembleRd, RegD;
  }

  lemma StXReads(d: Field5)
    ensures Reads(AssembleRd(0x920C, d), Ins.Data(DataIns.St(26, No(d), 0)), 2)
  {
    RdFields(0x920C, d);
    hide AssembleRd, RegD;
  }

  lemma LdXIncReads(d: Field5)
    ensures Reads(AssembleRd(0x900D, d), Ins.Data(DataIns.Ld(26, No(d), 1)), 2)
  {
    RdFields(0x900D, d);
    hide AssembleRd, RegD;
  }

  lemma StXIncReads(d: Field5)
    ensures Reads(AssembleRd(0x920D, d), Ins.Data(DataIns.St(26, No(d), 1)), 2)
  {
    RdFields(0x920D, d);
    hide AssembleRd, RegD;
  }

  lemma LdXDecReads(d: Field5)
    ensures Reads(AssembleRd(0x900E, d), Ins.Data(DataIns.Ld(26, No(d), 2)), 2)
  {
    RdFields(0x900E, d);
    hide AssembleRd, RegD;
  }

  lemma StXDecReads(d: Field5)
    ensures Reads(AssembleRd(0x920E, d), Ins.Data(DataIns.St(26, No(d), 2)), 2)
  {
    RdFields(0x920E, d);
    hide AssembleRd, RegD;
  }

  lemma LdYIncReads(d: Field5)
    ensures Reads(AssembleRd(0x9009, d), Ins.Data(DataIns.Ld(28, No(d), 1)), 2)
  {
    RdFields(0x9009, d);
    hide AssembleRd, RegD;
  }

  lemma StYIncReads(d: Field5)
    ensures Reads(AssembleRd(0x9209, d), Ins.Data(DataIns.St(28, No(d), 1)), 2)
  {
    RdFields(0x9209, d);
    hide AssembleRd, RegD;
  }

  lemma LdYDecReads(d: Field5)
    ensures Reads(AssembleRd(0x900A, d), Ins.Data(DataIns.Ld(28, No(d), 2)), 2)
  {
    RdFields(0x900A, d);
    hide AssembleRd, RegD;
  }

  lemma StYDecReads(d: Field5)
    ensures Reads(AssembleRd(0x920A, d), Ins.Data(DataIns.St(28, No(d), 2)), 2)
  {
    RdFields(0x920A, d);
    hide AssembleRd, RegD;
  }

  lemma LddYReads(d: Field5, q: Field6)
    ensures Reads(AssembleLdd(0x8008, d, q), Ins.Data(DataIns.Ldd(28, No(d), q as int)), 2)
  {
    LddFields(0x8008, d, q);
    hide AssembleLdd, RegD, Disp6;
  }

  lemma StdYReads(d: Field5, q: Field6)
    ensures Reads(AssembleLdd(0x8208, d, q), Ins.Data(DataIns.Std(28, No(d), q as int)), 2)
  {
    LddFields(0x8208, d, q);
    hide AssembleLdd, RegD, Disp6;
  }

  lemma LdZIncReads(d: Field5)
    ensures Reads(AssembleRd(0x9001, d), Ins.Data(DataIns.Ld(30, No(d), 1)), 2)
  {
    RdFields(0x9001, d);
    hide AssembleRd, RegD;
  }

  lemma StZIncReads(d: Field5)
    ensures Reads(AssembleRd(0x9201, d), Ins.Data(DataIns.St(30, No(d), 1)), 2)
  {
    RdFields(0x9201, d);
    hide AssembleRd, RegD;
  }

  lemma LdZDecReads(d: Field5)
    ensures Reads(AssembleRd(0x9002, d), Ins.Data(DataIns.Ld(30, No(d), 2)), 2)
  {
    RdFields(0x9002, d);
    hide AssembleRd, RegD;
  }

  lemma StZDecReads(d: Field5)
    ensures Reads(AssembleRd(0x9202, d), Ins.Data(DataIns.St(30, No(d), 2)), 2)
  {
    RdFields(0x9202, d);
    hide AssembleRd, RegD;
  }

  lemma LddZReads(d: Field5, q: Field6)
    ensures Reads(AssembleLdd(0x8000, d, q), Ins.Data(DataIns.Ldd(30, No(d), q as int)), 2)
  {
    LddFields(0x8000, d, q);
    hide AssembleLdd, RegD, Disp6;
  }

  lemma StdZReads(d: Field5, q: Field6)
    ensures Reads(AssembleLdd(0x8200, d, q), Ins.Data(DataIns.Std(30, No(d), q as int)), 2)
  {
    LddFields(0x8200, d, q);
    hide AssembleLdd, RegD, Disp6;
  }

  lemma LdsReads(d: Field5, second: Word)
    ensures ReadsTwo(AssembleRd(0x9000, d), second, Ins.Data(DataIns.Lds(No(d), second)), 2)
  {
    RdFields(0x9000, d);
    hide AssembleRd, RegD;
  }

  lemma StsReads(d: Field5, second: Word)
    ensures ReadsTwo(AssembleRd(0x9200, d), second, Ins.Data(DataIns.Sts(No(d), second)), 2)
  {
    RdFields(0x9200, d);
    hide AssembleRd, RegD;
  }

  lemma InReads(d: Field5, a: Field6)
    ensures Reads(AssembleRdIo(0xB000, d, a), Ins.Data(DataIns.In(No(d), a as int)), 1)
  {
    RdIoFields(0xB000, d, a);
    hide AssembleRdIo, RegD, Io6;
  }

  lemma OutReads(d: Field5, a: Field6)
    ensures Reads(AssembleRdIo(0xB800, d, a), Ins.Data(DataIns.Out(No(d), a as int)), 1)
  {
    RdIoFields(0xB800, d, a);
    hide AssembleRdIo, RegD, Io6;
  }

  lemma CbiReads(a: Field5, b: Field3)
    ensures Reads(AssembleIoB(0x9800, a, b), Ins.Data(DataIns.Cbi(a as int, b as int)), 2)
  {
    IoBFields(0x9800, a, b);
    hide AssembleIoB, Io5, BitLow;
  }

  lemma SbiReads(a: Field5, b: Field3)
    ensures Reads(AssembleIoB(0x9A00, a, b), Ins.Data(DataIns.Sbi(a as int, b as int)), 2)
  {
    IoBFields(0x9A00, a, b);
    hide AssembleIoB, Io5, BitLow;
  }

  lemma PopReads(d: Field5)
    ensures Reads(AssembleRd(0x900F, d), Ins.Data(DataIns.Pop(No(d))), 2)
  {
    RdFields(0x900F, d);
    hide AssembleRd, RegD;
  }

  lemma PushReads(d: Field5)
    ensures Reads(AssembleRd(0x920F, d), Ins.Data(DataIns.Push(No(d))), 2)
  {
    RdFields(0x920F, d);
    hide AssembleRd, RegD;
  }

  lemma LpmReads(d: Field5)
    ensures Reads(AssembleRd(0x9004, d), Ins.Data(DataIns.Lpm(No(d), false)), 3)
  {
    RdFields(0x9004, d);
    hide AssembleRd, RegD;
  }

  lemma LpmIncReads(d: Field5)
    ensures Reads(AssembleRd(0x9005, d), Ins.Data(DataIns.Lpm(No(d), true)), 3)
  {
    RdFields(0x9005, d);
    hide AssembleRd, RegD;
  }

  lemma LpmR0Reads()
    ensures Reads(0x95C8, Ins.Data(DataIns.Lpm(0, false)), 3)
  {
  }

  lemma SpmReads()
    ensures Reads(0x95E8, Ins.Data(DataIns.Spm), 1)
  {
  }

  // ------------------------------------------------------------------ branches, jumps, calls and skips

  lemma BrbsReads(k: Field7, s: Field3)
    ensures Reads(AssembleK7(0xF000, k, s), Ins.Flow(FlowIns.Brbs(SignedField(k as int, 64), s as int)), 1)
  {
    K7Fields(0xF000, k, s);
    hide AssembleK7, Offset7, BitLow;
  }

  lemma BrbcReads(k: Field7, s: Field3)
    ensures Reads(AssembleK7(0xF400, k, s), Ins.Flow(FlowIns.Brbc(SignedField(k as int, 64), s as int)), 1)
  {
    K7Fields(0xF400, k, s);
    hide AssembleK7, Offset7, BitLow;
  }

  lemma RjmpReads(k: Field12)
    ensures Reads(AssembleK02(0xC000, k), Ins.Flow(FlowIns.Rjmp(SignedField(k as int, 2048))), 2)
  {
    K02Fields(0xC000, k);
    hide AssembleK02, Offset12;
  }

  lemma RcallReads(k: Field12)
    ensures Reads(AssembleK02(0xD000, k), Ins.Flow(FlowIns.Rcall(SignedField(k as int, 2048))), 3)
  {
    K02Fields(0xD000, k);
    hide AssembleK02, Offset12;
  }

  lemma JmpReads(high: Field5, low: Field1, second: Word)
    ensures
      var w := 0x940C | (high << 4) | low;
      ReadsTwo(w, second, Ins.Flow(Jmp(Target22(w, second))), 3)
  {
  }

  lemma CallReads(high: Field5, low: Field1, second: Word)
    ensures
      var w := 0x940E | (high << 4) | low;
      ReadsTwo(w, second, Ins.Flow(Call(Target22(w, second))), 4)
  {
  }

  lemma IjmpReads()
    ensures Reads(0x9409, Ins.Flow(FlowIns.Ijmp), 2)
  {
  }

  lemma IcallReads()
    ensures Reads(0x9509, Ins.Flow(FlowIns.Icall), 3)
  {
  }

  lemma RetReads()
    ensures Reads(0x9508, Ins.Flow(FlowIns.Ret), 4)
  {
  }

  lemma RetiReads()
    ensures Reads(0x9518, Ins.Flow(FlowIns.Reti), 4)
  {
  }

  lemma CpseReads(d: Field5, r: Field5)
    ensures Reads(AssembleRdRr(0x1000, d, r), Ins.Flow(FlowIns.Cpse(No(d), No(r))), 1)
  {
    RdRrFields(0x1000, d, r);
    hide AssembleRdRr, RegD, RegR;
  }

  lemma SbrcReads(d: Field5, b: Field3)
    ensures Reads(AssembleRdB(0xFC00, d, b), Ins.Flow(FlowIns.Sbrc(No(d), b as int)), 1)
  {
    RdBFields(0xFC00, d, b);
    hide AssembleRdB, RegD, BitLow;
  }

  lemma SbrsReads(d: Field5, b: Field3)
    ensures Reads(AssembleRdB(0xFE00, d, b), Ins.Flow(FlowIns.Sbrs(No(d), b as int)), 1)
  {
    RdBFields(0xFE00, d, b);
    hide AssembleRdB, RegD, BitLow;
  }

  lemma SbicReads(a: Field5, b: Field3)
    ensures Reads(AssembleIoB(0x9900, a, b), Ins.Flow(FlowIns.Sbic(a as int, b as int)), 1)
  {
    IoBFields(0x9900, a, b);
    hide AssembleIoB, Io5, BitLow;
  }

  lemma SbisReads(a: Field5, b: Field3)
    ensures Reads(AssembleIoB(0x9B00, a, b), Ins.Flow(FlowIns.Sbis(a as int, b as int)), 1)
  {
    IoBFields(0x9B00, a, b);
    hide AssembleIoB, Io5, BitLow;
  }

  lemma NopReads()
    ensures Reads(0x0000, Ins.Flow(FlowIns.Nop), 1)
  {
  }

  lemma SleepReads()
    ensures Reads(0x9588, Ins.Flow(FlowIns.Nop), 1)
  {
  }

  lemma WdrReads()
    ensures Reads(0x95A8, Ins.Flow(FlowIns.Nop), 1)
  {
  }

  lemma BreakReads()
    ensures Reads(0x9598, Ins.Flow(FlowIns.Nop), 1)
  {
  }
}
