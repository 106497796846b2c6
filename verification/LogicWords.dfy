/** What every logic, shift, move and flag word does. */
module LogicWords {
  import opened Bits
  import opened Alu
  import opened BitFormulas
  import opened OpcodeTable
  import opened Decoder
  import opened OperandLaws
  import opened Machine
  import opened Instructions
  import opened WordReadings

  function BothBits(a: Byte, b: Byte): Byte {
    (a as bv8 & b as bv8) as int
  }

  function EitherBit(a: Byte, b: Byte): Byte {
    (a as bv8 | b as bv8) as int
  }

  function OneBit(a: Byte, b: Byte): Byte {
    (a as bv8 ^ b as bv8) as int
  }

  lemma BitwiseIs(a: Byte, b: Byte)
    ensures And8(a, b) == BothBits(a, b) && Or8(a, b) == EitherBit(a, b) && Xor8(a, b) == OneBit(a, b)
  {
    hide Zip;
    assert Combined(AndOp, a, b) == And8(a, b);
    assert Combined(OrOp, a, b) == Or8(a, b);
    assert Combined(XorOp, a, b) == Xor8(a, b);
  }

  lemma AsrIs(a: Byte)
    ensures (Signed8(a) / 2) % 0x100 == a / 2 + if a >= 128 then 128 else 0
  {
  }

  lemma PutFlagIs(f: Sreg, s: Field3, b: bool)
    ensures
      PutFlag(f, s as int, b) ==
      Sreg(if s as int == 0 then b else f.c, if s as int == 1 then b else f.z, if s as int == 2 then b else f.n,
           if s as int == 3 then b else f.v, if s as int == 4 then b else f.s, if s as int == 5 then b else f.h,
           if s as int == 6 then b else f.t, if s as int == 7 then b else f.i)
  {
  }

  /** AND Rd,Rr; TST Rd is AND Rd,Rd. */
  lemma AndWord(m: State, d: Field5, r: Field5)
    requires At(m, 0x2000 | ((r & 0x10) << 5) | (d << 4) | (r & 0x0F))
    ensures m.pc + 2 <= 0x8000
    ensures
      var a: Byte, b: Byte := m.r[No(d)], m.r[No(r)];
      var res := BothBits(a, b);
      Instruction(m) == Retired(Started(m, 2).(
        r := m.r[No(d) := res],
        sreg := m.sreg.(c := false, z := res == 0, n := m.sreg.n || res >= 128, v := false, s := res >= 128)), 1)
  {
    hide Instruction, Retired, At, No, High, Reads, And8, Or8, Xor8, BothBits, EitherBit, OneBit;
    AndReads(d, r);
    RunsAsRead(m, AssembleRdRr(0x2000, d, r), Ins.Logic(LogicIns.And(No(d), No(r))), 1);
    BitwiseIs(m.r[No(d)], m.r[No(r)]);
  }

  /** EOR Rd,Rr; CLR Rd is EOR Rd,Rd. */
  lemma EorWord(m: State, d: Field5, r: Field5)
    requires At(m, 0x2400 | ((r & 0x10) << 5) | (d << 4) | (r & 0x0F))
    ensures m.pc + 2 <= 0x8000
    ensures
      var a: Byte, b: Byte := m.r[No(d)], m.r[No(r)];
      var res := OneBit(a, b);
      Instruction(m) == Retired(Started(m, 2).(
        r := m.r[No(d) := res],
        sreg := m.sreg.(c := false, z := res == 0, n := m.sreg.n || res >= 128, v := false, s := res >= 128)), 1)
  {
    hide Instruction, Retired, At, No, High, Reads, And8, Or8, Xor8, BothBits, EitherBit, OneBit;
    EorReads(d, r);
    RunsAsRead(m, AssembleRdRr(0x2400, d, r), Ins.Logic(LogicIns.Eor(No(d), No(r))), 1);
    BitwiseIs(m.r[No(d)], m.r[No(r)]);
  }

  /** OR Rd,Rr. */
  lemma OrWord(m: State, d: Field5, r: Field5)
    requires At(m, 0x2800 | ((r & 0x10) << 5) | (d << 4) | (r & 0x0F))
    ensures m.pc + 2 <= 0x8000
    ensures
      var a: Byte, b: Byte := m.r[No(d)], m.r[No(r)];
      var res := EitherBit(a, b);
      Instruction(m) == Retired(Started(m, 2).(
        r := m.r[No(d) := res],
        sreg := m.sreg.(c := false, z := res == 0, n := m.sreg.n || res >= 128, v := false, s := res >= 128)), 1)
  {
    hide Instruction, Retired, At, No, High, Reads, And8, Or8, Xor8, BothBits, EitherBit, OneBit;
    OrReads(d, r);
    RunsAsRead(m, AssembleRdRr(0x2800, d, r), Ins.Logic(LogicIns.Or(No(d), No(r))), 1);
    BitwiseIs(m.r[No(d)], m.r[No(r)]);
  }

  /** ANDI Rd,K on R16 to R31; CBR is ANDI. */
  lemma AndiWord(m: State, d: Field4, k: Field8)
    requires At(m, 0x7000 | ((k & 0xF0) << 4) | (d << 4) | (k & 0x0F))
    ensures m.pc + 2 <= 0x8000
    ensures
      var a: Byte, b: Byte := m.r[High(d)], k as int;
      var res := BothBits(a, b);
      Instruction(m) == Retired(Started(m, 2).(
        r := m.r[High(d) := res],
        sreg := m.sreg.(c := false, z := res == 0, n := m.sreg.n || res >= 128, v := false, s := res >= 128)), 1)
  {
    hide Instruction, Retired, At, No, High, Reads, And8, Or8, Xor8, BothBits, EitherBit, OneBit;
    AndiReads(d, k);
    RunsAsRead(m, AssembleRdK8(0x7000, d, k), Ins.Logic(LogicIns.Andi(High(d), k as int)), 1);
    BitwiseIs(m.r[High(d)], k as int);
  }

  /** ORI Rd,K on R16 to R31; SBR is ORI. */
  lemma OriWord(m: State, d: Field4, k: Field8)
    requires At(m, 0x6000 | ((k & 0xF0) << 4) | (d << 4) | (k & 0x0F))
    ensures m.pc + 2 <= 0x8000
    ensures
      var a: Byte, b: Byte := m.r[High(d)], k as int;
      var res := EitherBit(a, b);
      Instruction(m) == Retired(Started(m, 2).(
        r := m.r[High(d) := res],
        sreg := m.sreg.(c := false, z := res == 0, n := m.sreg.n || res >= 128, v := false, s := res >= 128)), 1)
  {
    hide Instruction, Retired, At, No, High, Reads, And8, Or8, Xor8, BothBits, EitherBit, OneBit;
    OriReads(d, k);
    RunsAsRead(m, AssembleRdK8(0x6000, d, k), Ins.Logic(LogicIns.Ori(High(d), k as int)), 1);
    BitwiseIs(m.r[High(d)], k as int);
  }

  /** LSR Rd. */
  lemma LsrWord(m: State, d: Field5)
    requires At(m, 0x9406 | (d << 4))
    ensures m.pc + 2 <= 0x8000
    ensures
      var a: int := m.r[No(d)];
      var res, lost := a / 2, a % 2 == 1;
      Instruction(m) == Retired(Started(m, 2).(
        r := m.r[No(d) := res],
        sreg := m.sreg.(c := lost, z := res == 0, n := res >= 128, v := (res >= 128) != lost, s := lost)), 1)
  {
    hide Instruction, Retired, At, No, High, Reads;
    LsrReads(d);
    RunsAsRead(m, AssembleRd(0x9406, d), Ins.Logic(LogicIns.Lsr(No(d))), 1);
  }

  /** ASR Rd. */
  lemma AsrWord(m: State, d: Field5)
    requires At(m, 0x9405 | (d << 4))
    ensures m.pc + 2 <= 0x8000
    ensures
      var a: int := m.r[No(d)];
      var res, lost := a / 2 + (if a >= 128 then 128 else 0), a % 2 == 1;
      Instruction(m) == Retired(Started(m, 2).(
        r := m.r[No(d) := res],
        sreg := m.sreg.(c := lost, z := res == 0, n := res >= 128, v := (res >= 128) != lost, s := lost)), 1)
  {
    hide Instruction, Retired, At, No, High, Reads, Signed8;
    AsrReads(d);
    RunsAsRead(m, AssembleRd(0x9405, d), Ins.Logic(LogicIns.Asr(No(d))), 1);
    AsrIs(m.r[No(d)]);
  }

  /** ROR Rd. */
  lemma RorWord(m: State, d: Field5)
    requires At(m, 0x9407 | (d << 4))
    ensures m.pc + 2 <= 0x8000
    ensures
      var a: int := m.r[No(d)];
      var res, lost := a / 2 + (if m.sreg.c then 128 else 0), a % 2 == 1;
      Instruction(m) == Retired(Started(m, 2).(
        r := m.r[No(d) := res],
        sreg := m.sreg.(c := lost, z := res == 0, n := res >= 128, v := (res >= 128) != lost, s := lost)), 1)
  {
    hide Instruction, Retired, At, No, High, Reads;
    RorReads(d);
    RunsAsRead(m, AssembleRd(0x9407, d), Ins.Logic(LogicIns.Ror(No(d))), 1);
  }

  /** COM Rd. */
  lemma ComWord(m: State, d: Field5)
    requires At(m, 0x9400 | (d << 4))
    ensures m.pc + 2 <= 0x8000
    ensures
      var res := 255 - m.r[No(d)] as int;
      Instruction(m) == Retired(Started(m, 2).(
        r := m.r[No(d) := res],
        sreg := m.sreg.(c := true, z := res == 0, n := res >= 128, v := false, s := res >= 128)), 1)
  {
    hide Instruction, Retired, At, No, High, Reads;
    ComReads(d);
    RunsAsRead(m, AssembleRd(0x9400, d), Ins.Logic(LogicIns.Com(No(d))), 1);
  }

  /** SWAP Rd. */
  lemma SwapWord(m: State, d: Field5)
    requires At(m, 0x9402 | (d << 4))
    ensures m.pc + 2 <= 0x8000
    ensures
      var a: int := m.r[No(d)];
      Instruction(m) == Retired(Started(m, 2).(r := m.r[No(d) := 16 * (a % 16) + a / 16]), 1)
  {
    hide Instruction, Retired, At, No, High, Reads;
    SwapReads(d);
    RunsAsRead(m, AssembleRd(0x9402, d), Ins.Logic(LogicIns.Swap(No(d))), 1);
  }

  /** MOV Rd,Rr. */
  lemma MovWord(m: State, d: Field5, r: Field5)
    requires At(m, 0x2C00 | ((r & 0x10) << 5) | (d << 4) | (r & 0x0F))
    ensures m.pc + 2 <= 0x8000
    ensures
      Instruction(m) == Retired(Started(m, 2).(r := m.r[No(d) := m.r[No(r)]]), 1)
  {
    hide Instruction, Retired, At, No, High, Reads;
    MovReads(d, r);
    RunsAsRead(m, AssembleRdRr(0x2C00, d, r), Ins.Logic(LogicIns.Mov(No(d), No(r))), 1);
  }

  /** MOVW Rd+1:Rd,Rr+1:Rr on even registers. */
  lemma MovwWord(m: State, d: Field4, r: Field4)
    requires At(m, 0x0100 | (d << 4) | r)
    ensures m.pc + 2 <= 0x8000
    ensures
      var i, j := 2 * d as int, 2 * r as int;
      Instruction(m) == Retired(Started(m, 2).(r := m.r[i := m.r[j]][i + 1 := m.r[j + 1]]), 1)
  {
    hide Instruction, Retired, At, No, High, Reads, Lo, Hi, Join;
    MovwReads(d, r);
    RunsAsRead(m, AssembleRd06Rr06(0x0100, d, r), Ins.Logic(LogicIns.Movw(d as int, r as int)), 1);
    JoinSplits(m.r[2 * r as int], m.r[2 * r as int + 1]);
  }

  /** LDI Rd,K on R16 to R31; SER Rd is LDI Rd,255. */
  lemma LdiWord(m: State, d: Field4, k: Field8)
    requires At(m, 0xE000 | ((k & 0xF0) << 4) | (d << 4) | (k & 0x0F))
    ensures m.pc + 2 <= 0x8000
    ensures
      Instruction(m) == Retired(Started(m, 2).(r := m.r[High(d) := k as int]), 1)
  {
    hide Instruction, Retired, At, No, High, Reads;
    LdiReads(d, k);
    RunsAsRead(m, AssembleRdK8(0xE000, d, k), Ins.Logic(LogicIns.Ldi(High(d), k as int)), 1);
  }

  /** BSET s and its eight short forms. */
  lemma BsetWord(m: State, s: Field3)
    requires At(m, 0x9408 | (s << 4))
    ensures m.pc + 2 <= 0x8000
    ensures
      var f, g: Sreg := m.sreg, PutFlag(m.sreg, s as int, true);
      && Instruction(m) == Retired(Started(m, 2).(sreg := g), 1)
      && g == Sreg(
           if s as int == 0 then true else f.c, if s as int == 1 then true else f.z,
           if s as int == 2 then true else f.n, if s as int == 3 then true else f.v,
           if s as int == 4 then true else f.s, if s as int == 5 then true else f.h,
           if s as int == 6 then true else f.t, if s as int == 7 then true else f.i)
  {
    hide Instruction, Retired, At, No, High, Reads, PutFlag;
    BsetReads(s);
    RunsAsRead(m, AssembleBitOnly(0x9408, s), Ins.Logic(LogicIns.Bset(s as int)), 1);
    PutFlagIs(m.sreg, s, true);
  }

  /** BCLR s and its eight short forms. */
  lemma BclrWord(m: State, s: Field3)
    requires At(m, 0x9488 | (s << 4))
    ensures m.pc + 2 <= 0x8000
    ensures
      var f, g: Sreg := m.sreg, PutFlag(m.sreg, s as int, false);
      && Instruction(m) == Retired(Started(m, 2).(sreg := g), 1)
      && g == Sreg(
           if s as int == 0 then false else f.c, if s as int == 1 then false else f.z,
           if s as int == 2 then false else f.n, if s as int == 3 then false else f.v,
           if s as int == 4 then false else f.s, if s as int == 5 then false else f.h,
           if s as int == 6 then false else f.t, if s as int == 7 then false else f.i)
  {
    hide Instruction, Retired, At, No, High, Reads, PutFlag;
    BclrReads(s);
    RunsAsRead(m, AssembleBitOnly(0x9488, s), Ins.Logic(LogicIns.Bclr(s as int)), 1);
    PutFlagIs(m.sreg, s, false);
  }

  /** BLD Rd,b. */
  lemma BldWord(m: State, d: Field5, b: Field3)
    requires At(m, 0xF800 | (d << 4) | b)
    ensures m.pc + 2 <= 0x8000
    ensures
      Instruction(m) == Retired(Started(m, 2).(r := m.r[No(d) := SetBit8(m.r[No(d)], b as int, m.sreg.t)]), 1)
  {
    hide Instruction, Retired, At, No, High, Reads, SetBit8;
    BldReads(d, b);
    RunsAsRead(m, AssembleRdB(0xF800, d, b), Ins.Logic(LogicIns.Bld(No(d), b as int)), 1);
  }

  /** BST Rd,b. */
  lemma BstWord(m: State, d: Field5, b: Field3)
    requires At(m, 0xFA00 | (d << 4) | b)
    ensures m.pc + 2 <= 0x8000
    ensures
      Instruction(m) == Retired(Started(m, 2).(sreg := m.sreg.(t := Bit(m.r[No(d)], b as int))), 1)
  {
    hide Instruction, Retired, At, No, High, Reads, Bit;
    BstReads(d, b);
    RunsAsRead(m, AssembleRdB(0xFA00, d, b), Ins.Logic(LogicIns.Bst(No(d), b as int)), 1);
  }
}
