/** What every load, store and I/O word does, at absolute data addresses. */
module TransferWords {
  import opened Bits
  import opened Alu
  import opened OpcodeTable
  import opened Decoder
  import opened OperandLaws
  import opened Machine
  import opened MemoryLaws
  import opened Instructions
  import opened WordReadings

  /** One register changed. */
  function Loaded(m: State, d: Reg, v: Byte): State {
    m.(r := m.r[d := v])
  }

  /** A register pair changed, low byte first. */
  function Pointed(m: State, x: Pointer, w: Word): State {
    m.(r := m.r[x := w % 256][x + 1 := w / 256])
  }

  /** One byte of SRAM changed. */
  function Stored(m: State, x: Word, v: Byte): State
    requires x < 0x900
  {
    m.(sram := m.sram[x := v])
  }

  lemma ReadsAt(m: State, x: Word)
    ensures Plain(x) ==> ReadData(m, x) == Access(m, m.sram[x])
  {
    if Plain(x) {
      PlainIsSram(m, x, 0);
    }
  }

  lemma WritesAt(m: State, x: Word, v: Byte)
    ensures Plain(x) ==> WriteData(m, x, v) == Stored(m, x, v)
  {
    if Plain(x) {
      PlainIsSram(m, x, v);
    }
  }

  lemma LoadIs(m: State, d: Reg, x: Word)
    ensures Load(m, d, x) == Loaded(ReadData(m, x).m, d, ReadData(m, x).value)
  {
  }

  lemma LoadsAt(m: State, x: Pointer, d: Reg)
    ensures
      var p := Num16(m.r[x], m.r[x + 1]);
      var got := ReadData(m, p);
      && LoadIndirect(m, x, d, 0) == Loaded(got.m, d, got.value)
      && (Plain(p) ==> got == Access(m, m.sram[p]))
  {
    hide ReadData, Plain, Load;
    LoadIs(m, d, Num16(m.r[x], m.r[x + 1]));
    ReadsAt(m, Num16(m.r[x], m.r[x + 1]));
  }

  lemma LoadsThenSteps(m: State, x: Pointer, d: Reg)
    ensures
      var p := Num16(m.r[x], m.r[x + 1]);
      var got := ReadData(m, p);
      && LoadIndirect(m, x, d, 1) == Pointed(Loaded(got.m, d, got.value), x, (p + 1) % 65536)
      && (Plain(p) ==> got == Access(m, m.sram[p]))
  {
    hide ReadData, Plain, Load;
    LoadIs(m, d, Num16(m.r[x], m.r[x + 1]));
    ReadsAt(m, Num16(m.r[x], m.r[x + 1]));
  }

  lemma LoadsBelow(m: State, x: Pointer, d: Reg)
    ensures
      var p := (Num16(m.r[x], m.r[x + 1]) - 1) % 65536;
      var got := ReadData(Pointed(m, x, p), p);
      && LoadIndirect(m, x, d, 2) == Loaded(got.m, d, got.value)
      && (Plain(p) ==> got == Access(Pointed(m, x, p), m.sram[p]))
  {
    var p := (Num16(m.r[x], m.r[x + 1]) - 1) % 65536;
    DecrementIs(m, x);
    hide ReadData, Plain, Load, Pointed, PutPair, Num16, PairValue;
    LoadIs(Pointed(m, x, p), d, p);
    ReadsAt(Pointed(m, x, p), p);
    SameSram(m, x, p);
  }

  lemma DecrementIs(m: State, x: Pointer)
    ensures
      var p := (Num16(m.r[x], m.r[x + 1]) - 1) % 65536;
      Wrap16(PairValue(m, x) - 1) == p && PutPair(m, x, p) == Pointed(m, x, p)
  {
  }

  lemma SameSram(m: State, x: Pointer, w: Word)
    ensures Pointed(m, x, w).sram == m.sram
  {
  }

  lemma StoresAt(m: State, x: Pointer, d: Reg)
    ensures
      var p := Num16(m.r[x], m.r[x + 1]);
      var put := WriteData(m, p, m.r[d]);
      StoreIndirect(m, x, d, 0) == put && (Plain(p) ==> put == Stored(m, p, m.r[d]))
  {
    hide WriteData, Plain, Stored;
    WritesAt(m, Num16(m.r[x], m.r[x + 1]), m.r[d]);
  }

  lemma StoresThenSteps(m: State, x: Pointer, d: Reg)
    ensures
      var p := Num16(m.r[x], m.r[x + 1]);
      var put := WriteData(m, p, m.r[d]);
      StoreIndirect(m, x, d, 1) == Pointed(put, x, (p + 1) % 65536) && (Plain(p) ==> put == Stored(m, p, m.r[d]))
  {
    hide WriteData, Plain, Stored;
    WritesAt(m, Num16(m.r[x], m.r[x + 1]), m.r[d]);
  }

  lemma StoresBelow(m: State, x: Pointer, d: Reg)
    ensures
      var p := (Num16(m.r[x], m.r[x + 1]) - 1) % 65536;
      var moved := Pointed(m, x, p);
      var put := WriteData(moved, p, moved.r[d]);
      StoreIndirect(m, x, d, 2) == put && (Plain(p) ==> put == Stored(moved, p, moved.r[d]))
  {
    var p := (Num16(m.r[x], m.r[x + 1]) - 1) % 65536;
    DecrementIs(m, x);
    hide WriteData, Plain, Stored, Pointed, PutPair, Num16, PairValue;
    WritesAt(Pointed(m, x, p), p, Pointed(m, x, p).r[d]);
  }

  lemma LddIs(m: State, x: Pointer, d: Reg, q: Byte)
    requires q < 64
    ensures
      var p := (Num16(m.r[x], m.r[x + 1]) + q as int) % 65536;
      var got := ReadData(m, p);
      && Execute(m, Ins.Data(DataIns.Ldd(x, d, q))) == Loaded(got.m, d, got.value)
      && (Plain(p) ==> got == Access(m, m.sram[p]))
  {
    hide ReadData, Plain, Num16, Join, Loaded;
    NumIs(m.r[x], m.r[x + 1]);
    ReadsAt(m, (Num16(m.r[x], m.r[x + 1]) + q as int) % 65536);
    LoadIs(m, d, (Num16(m.r[x], m.r[x + 1]) + q as int) % 65536);
  }

  lemma StdIs(m: State, x: Pointer, d: Reg, q: Byte)
    requires q < 64
    ensures
      var p := (Num16(m.r[x], m.r[x + 1]) + q as int) % 65536;
      var put := WriteData(m, p, m.r[d]);
      && Execute(m, Ins.Data(DataIns.Std(x, d, q))) == put
      && (Plain(p) ==> put == Stored(m, p, m.r[d]))
  {
    hide WriteData, Plain, Num16, Join, Stored;
    NumIs(m.r[x], m.r[x + 1]);
    WritesAt(m, (Num16(m.r[x], m.r[x + 1]) + q as int) % 65536, m.r[d]);
  }

  /** CBI and SBI read the register, change one bit and write it. */
  lemma PutsBit(m: State, io: Reg, b: BitIndex)
    ensures
      var x := io + 32;
      var got := ReadData(m, x);
      && Execute(m, Ins.Data(DataIns.Cbi(io, b))) == WriteData(got.m, x, SetBit8(got.value, b, false))
      && Execute(m, Ins.Data(DataIns.Sbi(io, b))) == WriteData(got.m, x, SetBit8(got.value, b, true))
      && (Plain(x) ==>
            && WriteData(got.m, x, SetBit8(got.value, b, false)) == Stored(m, x, SetBit8(m.sram[x], b, false))
            && WriteData(got.m, x, SetBit8(got.value, b, true)) == Stored(m, x, SetBit8(m.sram[x], b, true)))
  {
    hide ReadData, WriteData, Plain, SetBit8;
    ReadsAt(m, io + 32);
    if Plain(io + 32) {
      WritesAt(m, io + 32, SetBit8(m.sram[io + 32], b, false));
      WritesAt(m, io + 32, SetBit8(m.sram[io + 32], b, true));
    }
  }

  lemma PopsAt(m: State)
    requires !m.fault
    ensures m.sp < 0x8FF && Plain(m.sp + 1) ==> PopByte(m) == Access(m.(sp := m.sp + 1), m.sram[m.sp + 1])
    ensures m.sp >= 0x8FF ==> PopByte(m) == Access(m.(fault := true), 0)
  {
    hide ReadData, Plain;
    if m.sp < 0x8FF {
      ReadsAt(m.(sp := m.sp + 1), m.sp + 1);
    }
  }

  lemma PushesAt(m: State, v: Byte)
    requires !m.fault
    ensures m.sp >= 0x100 && Plain(m.sp) ==> PushByte(m, v) == m.(sram := m.sram[m.sp := v], sp := m.sp - 1)
    ensures !(0x100 <= m.sp <= 0x8FF) ==> PushByte(m, v) == m.(fault := true)
  {
    WritesAt(m, m.sp, v);
    assert Plain(m.sp) ==> m.sp <= 0x8FF;
    hide WriteData, Plain;
  }

  lemma RetiredFaults(m: State, cycles: nat)
    requires m.fault && cycles <= 4
    ensures Retired(m, cycles) == Halted(m)
  {
  }

  /** LD Rd,X. */
  lemma LdXWord(m: State, d: Field5)
    requires At(m, 0x900C | (d << 4))
    ensures m.pc + 2 <= 0x8000
    ensures
      var x, start := Num16(m.r[26], m.r[27]), Started(m, 2);
      var got := ReadData(start, x);
      && Instruction(m) == Retired(Loaded(got.m, No(d), got.value), 2)
      && (Plain(x) ==> Instruction(m) == Retired(Loaded(start, No(d), m.sram[x]), 2))
  {
    hide Instruction, Retired, At, No, High, Reads, ReadData, LoadIndirect, Loaded, Stored, Pointed, Plain, Num16;
    LdXReads(d);
    RunsAsRead(m, AssembleRd(0x900C, d), Ins.Data(DataIns.Ld(26, No(d), 0)), 2);
    LoadsAt(Started(m, 2), 26, No(d));
  }

  /** ST X,Rd. */
  lemma StXWord(m: State, d: Field5)
    requires At(m, 0x920C | (d << 4))
    ensures m.pc + 2 <= 0x8000
    ensures
      var x, start := Num16(m.r[26], m.r[27]), Started(m, 2);
      && Instruction(m) == Retired(WriteData(start, x, m.r[No(d)]), 2)
      && (Plain(x) ==> Instruction(m) == Retired(Stored(start, x, m.r[No(d)]), 2))
  {
    hide Instruction, Retired, At, No, High, Reads, WriteData, StoreIndirect, Loaded, Stored, Pointed, Plain, Num16;
    StXReads(d);
    RunsAsRead(m, AssembleRd(0x920C, d), Ins.Data(DataIns.St(26, No(d), 0)), 2);
    StoresAt(Started(m, 2), 26, No(d));
  }

  /** LD Rd,X+. */
  lemma LdXIncWord(m: State, d: Field5)
    requires At(m, 0x900D | (d << 4))
    ensures m.pc + 2 <= 0x8000
    ensures
      var x, start := Num16(m.r[26], m.r[27]), Started(m, 2);
      var got := ReadData(start, x);
      && Instruction(m) == Retired(Pointed(Loaded(got.m, No(d), got.value), 26, (x + 1) % 65536), 2)
      && (Plain(x) ==> Instruction(m) == Retired(Pointed(Loaded(start, No(d), m.sram[x]), 26, (x + 1) % 65536), 2))
  {
    hide Instruction, Retired, At, No, High, Reads, ReadData, LoadIndirect, Loaded, Stored, Pointed, Plain, Num16;
    LdXIncReads(d);
    RunsAsRead(m, AssembleRd(0x900D, d), Ins.Data(DataIns.Ld(26, No(d), 1)), 2);
    LoadsThenSteps(Started(m, 2), 26, No(d));
  }

  /** ST X+,Rd. */
  lemma StXIncWord(m: State, d: Field5)
    requires At(m, 0x920D | (d << 4))
    ensures m.pc + 2 <= 0x8000
    ensures
      var x, start := Num16(m.r[26], m.r[27]), Started(m, 2);
      && Instruction(m) == Retired(Pointed(WriteData(start, x, m.r[No(d)]), 26, (x + 1) % 65536), 2)
      && (Plain(x) ==> Instruction(m) == Retired(Pointed(Stored(start, x, m.r[No(d)]), 26, (x + 1) % 65536), 2))
  {
    hide Instruction, Retired, At, No, High, Reads, WriteData, StoreIndirect, Loaded, Stored, Pointed, Plain, Num16;
    StXIncReads(d);
    RunsAsRead(m, AssembleRd(0x920D, d), Ins.Data(DataIns.St(26, No(d), 1)), 2);
    StoresThenSteps(Started(m, 2), 26, No(d));
  }

  /** LD Rd,-X. */
  lemma LdXDecWord(m: State, d: Field5)
    requires At(m, 0x900E | (d << 4))
    ensures m.pc + 2 <= 0x8000
    ensures
      var x := (Num16(m.r[26], m.r[27]) - 1) % 65536;
      var moved := Pointed(Started(m, 2), 26, x);
      var got := ReadData(moved, x);
      && Instruction(m) == Retired(Loaded(got.m, No(d), got.value), 2)
      && (Plain(x) ==> Instruction(m) == Retired(Loaded(moved, No(d), m.sram[x]), 2))
  {
    hide Instruction, Retired, At, No, High, Reads, ReadData, LoadIndirect, Loaded, Stored, Pointed, Plain, Num16;
    LdXDecReads(d);
    RunsAsRead(m, AssembleRd(0x900E, d), Ins.Data(DataIns.Ld(26, No(d), 2)), 2);
    LoadsBelow(Started(m, 2), 26, No(d));
  }

  /** ST -X,Rd. */
  lemma StXDecWord(m: State, d: Field5)
    requires At(m, 0x920E | (d << 4))
    ensures m.pc + 2 <= 0x8000
    ensures
      var x := (Num16(m.r[26], m.r[27]) - 1) % 65536;
      var moved := Pointed(Started(m, 2), 26, x);
      && Instruction(m) == Retired(WriteData(moved, x, moved.r[No(d)]), 2)
      && (Plain(x) ==> Instruction(m) == Retired(Stored(moved, x, moved.r[No(d)]), 2))
  {
    hide Instruction, Retired, At, No, High, Reads, WriteData, StoreIndirect, Loaded, Stored, Pointed, Plain, Num16;
    StXDecReads(d);
    RunsAsRead(m, AssembleRd(0x920E, d), Ins.Data(DataIns.St(26, No(d), 2)), 2);
    StoresBelow(Started(m, 2), 26, No(d));
  }

  /** LD Rd,Y+. */
  lemma LdYIncWord(m: State, d: Field5)
    requires At(m, 0x9009 | (d << 4))
    ensures m.pc + 2 <= 0x8000
    ensures
      var x, start := Num16(m.r[28], m.r[29]), Started(m, 2);
      var got := ReadData(start, x);
      && Instruction(m) == Retired(Pointed(Loaded(got.m, No(d), got.value), 28, (x + 1) % 65536), 2)
      && (Plain(x) ==> Instruction(m) == Retired(Pointed(Loaded(start, No(d), m.sram[x]), 28, (x + 1) % 65536), 2))
  {
    hide Instruction, Retired, At, No, High, Reads, ReadData, LoadIndirect, Loaded, Stored, Pointed, Plain, Num16;
    LdYIncReads(d);
    RunsAsRead(m, AssembleRd(0x9009, d), Ins.Data(DataIns.Ld(28, No(d), 1)), 2);
    LoadsThenSteps(Started(m, 2), 28, No(d));
  }

  /** ST Y+,Rd. */
  lemma StYIncWord(m: State, d: Field5)
    requires At(m, 0x9209 | (d << 4))
    ensures m.pc + 2 <= 0x8000
    ensures
      var x, start := Num16(m.r[28], m.r[29]), Started(m, 2);
      && Instruction(m) == Retired(Pointed(WriteData(start, x, m.r[No(d)]), 28, (x + 1) % 65536), 2)
      && (Plain(x) ==> Instruction(m) == Retired(Pointed(Stored(start, x, m.r[No(d)]), 28, (x + 1) % 65536), 2))
  {
    hide Instruction, Retired, At, No, High, Reads, WriteData, StoreIndirect, Loaded, Stored, Pointed, Plain, Num16;
    StYIncReads(d);
    RunsAsRead(m, AssembleRd(0x9209, d), Ins.Data(DataIns.St(28, No(d), 1)), 2);
    StoresThenSteps(Started(m, 2), 28, No(d));
  }

  /** LD Rd,-Y. */
  lemma LdYDecWord(m: State, d: Field5)
    requires At(m, 0x900A | (d << 4))
    ensures m.pc + 2 <= 0x8000
    ensures
      var x := (Num16(m.r[28], m.r[29]) - 1) % 65536;
      var moved := Pointed(Started(m, 2), 28, x);
      var got := ReadData(moved, x);
      && Instruction(m) == Retired(Loaded(got.m, No(d), got.value), 2)
      && (Plain(x) ==> Instruction(m) == Retired(Loaded(moved, No(d), m.sram[x]), 2))
  {
    hide Instruction, Retired, At, No, High, Reads, ReadData, LoadIndirect, Loaded, Stored, Pointed, Plain, Num16;
    LdYDecReads(d);
    RunsAsRead(m, AssembleRd(0x900A, d), Ins.Data(DataIns.Ld(28, No(d), 2)), 2);
    LoadsBelow(Started(m, 2), 28, No(d));
  }

  /** ST -Y,Rd. */
  lemma StYDecWord(m: State, d: Field5)
    requires At(m, 0x920A | (d << 4))
    ensures m.pc + 2 <= 0x8000
    ensures
      var x := (Num16(m.r[28], m.r[29]) - 1) % 65536;
      var moved := Pointed(Started(m, 2), 28, x);
      && Instruction(m) == Retired(WriteData(moved, x, moved.r[No(d)]), 2)
      && (Plain(x) ==> Instruction(m) == Retired(Stored(moved, x, moved.r[No(d)]), 2))
  {
    hide Instruction, Retired, At, No, High, Reads, WriteData, StoreIndirect, Loaded, Stored, Pointed, Plain, Num16;
    StYDecReads(d);
    RunsAsRead(m, AssembleRd(0x920A, d), Ins.Data(DataIns.St(28, No(d), 2)), 2);
    StoresBelow(Started(m, 2), 28, No(d));
  }

  /** LDD Rd,Y+q; LD Rd,Y is q = 0. */
  lemma LddYWord(m: State, d: Field5, q: Field6)
    requires At(m, 0x8008 | ((q & 0x20) << 8) | ((q & 0x18) << 7) | (d << 4) | (q & 0x07))
    ensures m.pc + 2 <= 0x8000
    ensures
      var x, start := (Num16(m.r[28], m.r[29]) + q as int) % 65536, Started(m, 2);
      var got := ReadData(start, x);
      && Instruction(m) == Retired(Loaded(got.m, No(d), got.value), 2)
      && (Plain(x) ==> Instruction(m) == Retired(Loaded(start, No(d), m.sram[x]), 2))
  {
    hide Instruction, Retired, At, No, High, Reads, Execute, ReadData, Loaded, Stored, Pointed, Plain, Num16;
    LddYReads(d, q);
    RunsAsRead(m, AssembleLdd(0x8008, d, q), Ins.Data(DataIns.Ldd(28, No(d), q as int)), 2);
    LddIs(Started(m, 2), 28, No(d), q as int);
  }

  /** STD Y+q,Rd; ST Y,Rd is q = 0. */
  lemma StdYWord(m: State, d: Field5, q: Field6)
    requires At(m, 0x8208 | ((q & 0x20) << 8) | ((q & 0x18) << 7) | (d << 4) | (q & 0x07))
    ensures m.pc + 2 <= 0x8000
    ensures
      var x, start := (Num16(m.r[28], m.r[29]) + q as int) % 65536, Started(m, 2);
      && Instruction(m) == Retired(WriteData(start, x, m.r[No(d)]), 2)
      && (Plain(x) ==> Instruction(m) == Retired(Stored(start, x, m.r[No(d)]), 2))
  {
    hide Instruction, Retired, At, No, High, Reads, Execute, WriteData, Loaded, Stored, Pointed, Plain, Num16;
    StdYReads(d, q);
    RunsAsRead(m, AssembleLdd(0x8208, d, q), Ins.Data(DataIns.Std(28, No(d), q as int)), 2);
    StdIs(Started(m, 2), 28, No(d), q as int);
  }

  /** LD Rd,Z+. */
  lemma LdZIncWord(m: State, d: Field5)
    requires At(m, 0x9001 | (d << 4))
    ensures m.pc + 2 <= 0x8000
    ensures
      var x, start := Num16(m.r[30], m.r[31]), Started(m, 2);
      var got := ReadData(start, x);
      && Instruction(m) == Retired(Pointed(Loaded(got.m, No(d), got.value), 30, (x + 1) % 65536), 2)
      && (Plain(x) ==> Instruction(m) == Retired(Pointed(Loaded(start, No(d), m.sram[x]), 30, (x + 1) % 65536), 2))
  {
    hide Instruction, Retired, At, No, High, Reads, ReadData, LoadIndirect, Loaded, Stored, Pointed, Plain, Num16;
    LdZIncReads(d);
    RunsAsRead(m, AssembleRd(0x9001, d), Ins.Data(DataIns.Ld(30, No(d), 1)), 2);
    LoadsThenSteps(Started(m, 2), 30, No(d));
  }

  /** ST Z+,Rd. */
  lemma StZIncWord(m: State, d: Field5)
    requires At(m, 0x9201 | (d << 4))
    ensures m.pc + 2 <= 0x8000
    ensures
      var x, start := Num16(m.r[30], m.r[31]), Started(m, 2);
      && Instruction(m) == Retired(Pointed(WriteData(start, x, m.r[No(d)]), 30, (x + 1) % 65536), 2)
      && (Plain(x) ==> Instruction(m) == Retired(Pointed(Stored(start, x, m.r[No(d)]), 30, (x + 1) % 65536), 2))
  {
    hide Instruction, Retired, At, No, High, Reads, WriteData, StoreIndirect, Loaded, Stored, Pointed, Plain, Num16;
    StZIncReads(d);
    RunsAsRead(m, AssembleRd(0x9201, d), Ins.Data(DataIns.St(30, No(d), 1)), 2);
    StoresThenSteps(Started(m, 2), 30, No(d));
  }

  /** LD Rd,-Z. */
  lemma LdZDecWord(m: State, d: Field5)
    requires At(m, 0x9002 | (d << 4))
    ensures m.pc + 2 <= 0x8000
    ensures
      var x := (Num16(m.r[30], m.r[31]) - 1) % 65536;
      var moved := Pointed(Started(m, 2), 30, x);
      var got := ReadData(moved, x);
      && Instruction(m) == Retired(Loaded(got.m, No(d), got.value), 2)
      && (Plain(x) ==> Instruction(m) == Retired(Loaded(moved, No(d), m.sram[x]), 2))
  {
    hide Instruction, Retired, At, No, High, Reads, ReadData, LoadIndirect, Loaded, Stored, Pointed, Plain, Num16;
    LdZDecReads(d);
    RunsAsRead(m, AssembleRd(0x9002, d), Ins.Data(DataIns.Ld(30, No(d), 2)), 2);
    LoadsBelow(Started(m, 2), 30, No(d));
  }

  /** ST -Z,Rd. */
  lemma StZDecWord(m: State, d: Field5)
    requires At(m, 0x9202 | (d << 4))
    ensures m.pc + 2 <= 0x8000
    ensures
      var x := (Num16(m.r[30], m.r[31]) - 1) % 65536;
      var moved := Pointed(Started(m, 2), 30, x);
      && Instruction(m) == Retired(WriteData(moved, x, moved.r[No(d)]), 2)
      && (Plain(x) ==> Instruction(m) == Retired(Stored(moved, x, moved.r[No(d)]), 2))
  {
    hide Instruction, Retired, At, No, High, Reads, WriteData, StoreIndirect, Loaded, Stored, Pointed, Plain, Num16;
    StZDecReads(d);
    RunsAsRead(m, AssembleRd(0x9202, d), Ins.Data(DataIns.St(30, No(d), 2)), 2);
    StoresBelow(Started(m, 2), 30, No(d));
  }

  /** LDD Rd,Z+q; LD Rd,Z is q = 0. */
  lemma LddZWord(m: State, d: Field5, q: Field6)
    requires At(m, 0x8000 | ((q & 0x20) << 8) | ((q & 0x18) << 7) | (d << 4) | (q & 0x07))
    ensures m.pc + 2 <= 0x8000
    ensures
      var x, start := (Num16(m.r[30], m.r[31]) + q as int) % 65536, Started(m, 2);
      var got := ReadData(start, x);
      && Instruction(m) == Retired(Loaded(got.m, No(d), got.value), 2)
      && (Plain(x) ==> Instruction(m) == Retired(Loaded(start, No(d), m.sram[x]), 2))
  {
    hide Instruction, Retired, At, No, High, Reads, Execute, ReadData, Loaded, Stored, Pointed, Plain, Num16;
    LddZReads(d, q);
    RunsAsRead(m, AssembleLdd(0x8000, d, q), Ins.Data(DataIns.Ldd(30, No(d), q as int)), 2);
    LddIs(Started(m, 2), 30, No(d), q as int);
  }

  /** STD Z+q,Rd; ST Z,Rd is q = 0. */
  lemma StdZWord(m: State, d: Field5, q: Field6)
    requires At(m, 0x8200 | ((q & 0x20) << 8) | ((q & 0x18) << 7) | (d << 4) | (q & 0x07))
    ensures m.pc + 2 <= 0x8000
    ensures
      var x, start := (Num16(m.r[30], m.r[31]) + q as int) % 65536, Started(m, 2);
      && Instruction(m) == Retired(WriteData(start, x, m.r[No(d)]), 2)
      && (Plain(x) ==> Instruction(m) == Retired(Stored(start, x, m.r[No(d)]), 2))
  {
    hide Instruction, Retired, At, No, High, Reads, Execute, WriteData, Loaded, Stored, Pointed, Plain, Num16;
    StdZReads(d, q);
    RunsAsRead(m, AssembleLdd(0x8200, d, q), Ins.Data(DataIns.Std(30, No(d), q as int)), 2);
    StdIs(Started(m, 2), 30, No(d), q as int);
  }

  /** LDS Rd,k: the address is the second word. */
  lemma LdsWord(m: State, d: Field5, second: Word)
    requires At(m, 0x9000 | (d << 4)) && Second(m, second)
    ensures m.pc + 4 <= 0x8000
    ensures
      var start := Started(m, 4);
      var got := ReadData(start, second);
      && Instruction(m) == Retired(Loaded(got.m, No(d), got.value), 2)
      && (Plain(second) ==> Instruction(m) == Retired(Loaded(start, No(d), m.sram[second]), 2))
  {
    hide Instruction, Retired, At, No, High, ReadsTwo, Second, ReadData, Plain;
    LdsReads(d, second);
    RunsTwoAsRead(m, AssembleRd(0x9000, d), second, Ins.Data(DataIns.Lds(No(d), second)), 2);
    ReadsAt(Started(m, 4), second);
  }

  /** STS k,Rd: the address is the second word. */
  lemma StsWord(m: State, d: Field5, second: Word)
    requires At(m, 0x9200 | (d << 4)) && Second(m, second)
    ensures m.pc + 4 <= 0x8000
    ensures
      var start := Started(m, 4);
      && Instruction(m) == Retired(WriteData(start, second, m.r[No(d)]), 2)
      && (Plain(second) ==> Instruction(m) == Retired(Stored(start, second, m.r[No(d)]), 2))
  {
    hide Instruction, Retired, At, No, High, ReadsTwo, Second, WriteData, Plain, Stored;
    StsReads(d, second);
    RunsTwoAsRead(m, AssembleRd(0x9200, d), second, Ins.Data(DataIns.Sts(No(d), second)), 2);
    WritesAt(Started(m, 4), second, m.r[No(d)]);
  }

  /** IN Rd,A: data address A + 32. */
  lemma InWord(m: State, d: Field5, a: Field6)
    requires At(m, 0xB000 | ((a & 0x30) << 5) | (d << 4) | (a & 0x0F))
    ensures m.pc + 2 <= 0x8000
    ensures
      var x, start := a as int + 32, Started(m, 2);
      var got := ReadData(start, x);
      && Instruction(m) == Retired(Loaded(got.m, No(d), got.value), 1)
      && (Plain(x) ==> Instruction(m) == Retired(Loaded(start, No(d), m.sram[x]), 1))
  {
    hide Instruction, Retired, At, No, High, Reads, ReadData, Plain;
    InReads(d, a);
    RunsAsRead(m, AssembleRdIo(0xB000, d, a), Ins.Data(DataIns.In(No(d), a as int)), 1);
    ReadsAt(Started(m, 2), a as int + 32);
  }

  /** OUT A,Rr: data address A + 32. */
  lemma OutWord(m: State, d: Field5, a: Field6)
    requires At(m, 0xB800 | ((a & 0x30) << 5) | (d << 4) | (a & 0x0F))
    ensures m.pc + 2 <= 0x8000
    ensures
      var x, start := a as int + 32, Started(m, 2);
      && Instruction(m) == Retired(WriteData(start, x, m.r[No(d)]), 1)
      && (Plain(x) ==> Instruction(m) == Retired(Stored(start, x, m.r[No(d)]), 1))
  {
    hide Instruction, Retired, At, No, High, Reads, WriteData, Plain, Stored;
    OutReads(d, a);
    RunsAsRead(m, AssembleRdIo(0xB800, d, a), Ins.Data(DataIns.Out(No(d), a as int)), 1);
    WritesAt(Started(m, 2), a as int + 32, m.r[No(d)]);
  }

  /** CBI A,b: data address A + 32. */
  lemma CbiWord(m: State, a: Field5, b: Field3)
    requires At(m, 0x9800 | (a << 3) | b)
    ensures m.pc + 2 <= 0x8000
    ensures
      var x, start := a as int + 32, Started(m, 2);
      var got := ReadData(start, x);
      && Instruction(m) == Retired(WriteData(got.m, x, SetBit8(got.value, b as int, false)), 2)
      && (Plain(x) ==> Instruction(m) == Retired(Stored(start, x, SetBit8(m.sram[x], b as int, false)), 2))
  {
    hide Instruction, Retired, At, No, High, Reads, Execute, ReadData, WriteData, Plain, SetBit8, Stored;
    CbiReads(a, b);
    RunsAsRead(m, AssembleIoB(0x9800, a, b), Ins.Data(DataIns.Cbi(a as int, b as int)), 2);
    PutsBit(Started(m, 2), a as int, b as int);
  }

  /** SBI A,b: data address A + 32. */
  lemma SbiWord(m: State, a: Field5, b: Field3)
    requires At(m, 0x9A00 | (a << 3) | b)
    ensures m.pc + 2 <= 0x8000
    ensures
      var x, start := a as int + 32, Started(m, 2);
      var got := ReadData(start, x);
      && Instruction(m) == Retired(WriteData(got.m, x, SetBit8(got.value, b as int, true)), 2)
      && (Plain(x) ==> Instruction(m) == Retired(Stored(start, x, SetBit8(m.sram[x], b as int, true)), 2))
  {
    hide Instruction, Retired, At, No, High, Reads, Execute, ReadData, WriteData, Plain, SetBit8, Stored;
    SbiReads(a, b);
    RunsAsRead(m, AssembleIoB(0x9A00, a, b), Ins.Data(DataIns.Sbi(a as int, b as int)), 2);
    PutsBit(Started(m, 2), a as int, b as int);
  }

  /** POP Rd: what the stack holds on top. */
  lemma PopWord(m: State, d: Field5)
    requires At(m, 0x900F | (d << 4))
    ensures m.pc + 2 <= 0x8000
    ensures
      var got := PopByte(Started(m, 2));
      && Instruction(m) == Retired(Loaded(got.m, No(d), got.value), 2)
      && (m.sp < 0x8FF && Plain(m.sp + 1) ==>
            Instruction(m) == Retired(Loaded(Started(m, 2), No(d), m.sram[m.sp + 1]).(sp := m.sp + 1), 2))
      && (m.sp >= 0x8FF ==> Instruction(m) == Halted(Loaded(Started(m, 2), No(d), 0).(fault := true)))
  {
    hide Instruction, Retired, At, No, High, Reads, PopByte, Plain;
    PopReads(d);
    RunsAsRead(m, AssembleRd(0x900F, d), Ins.Data(DataIns.Pop(No(d))), 2);
    PopsAt(Started(m, 2));
    RetiredFaults(Started(m, 2).(fault := true, r := m.r[No(d) := 0]), 2);
  }

  /** PUSH Rd. */
  lemma PushWord(m: State, d: Field5)
    requires At(m, 0x920F | (d << 4))
    ensures m.pc + 2 <= 0x8000
    ensures
      && Instruction(m) == Retired(PushByte(Started(m, 2), m.r[No(d)]), 2)
      && (m.sp >= 0x100 && Plain(m.sp) ==>
            Instruction(m) == Retired(Started(m, 2).(sram := m.sram[m.sp := m.r[No(d)]], sp := m.sp - 1), 2))
      && (!(0x100 <= m.sp <= 0x8FF) ==> Instruction(m) == Halted(Started(m, 2).(fault := true)))
  {
    hide Instruction, Retired, At, No, High, Reads, PushByte, Plain;
    PushReads(d);
    RunsAsRead(m, AssembleRd(0x920F, d), Ins.Data(DataIns.Push(No(d))), 2);
    PushesAt(Started(m, 2), m.r[No(d)]);
    RetiredFaults(Started(m, 2).(fault := true), 2);
  }

  /** LPM Rd,Z. */
  lemma LpmWord(m: State, d: Field5)
    requires At(m, 0x9004 | (d << 4))
    ensures m.pc + 2 <= 0x8000
    ensures
      var z := Num16(m.r[30], m.r[31]);
      if z >= 0x8000 then Instruction(m) == Halted(Started(m, 2).(fault := true))
      else Instruction(m) == Retired(Started(m, 2).(r := m.r[No(d) := m.flash[z]]), 3)
  {
    hide Instruction, Retired, At, No, High, Reads, Num16, Join;
    LpmReads(d);
    RunsAsRead(m, AssembleRd(0x9004, d), Ins.Data(DataIns.Lpm(No(d), false)), 3);
    NumIs(m.r[30], m.r[31]);
    RetiredFaults(Started(m, 2).(fault := true), 3);
  }

  /** LPM Rd,Z+. */
  lemma LpmIncWord(m: State, d: Field5)
    requires At(m, 0x9005 | (d << 4))
    ensures m.pc + 2 <= 0x8000
    ensures
      var z := Num16(m.r[30], m.r[31]);
      if z >= 0x8000 then Instruction(m) == Halted(Started(m, 2).(fault := true))
      else Instruction(m) == Retired(Started(m, 2).(
        r := m.r[No(d) := m.flash[z]][30 := (z + 1) % 256][31 := (z + 1) / 256]), 3)
  {
    hide Instruction, Retired, At, No, High, Reads, Num16, Join;
    LpmIncReads(d);
    RunsAsRead(m, AssembleRd(0x9005, d), Ins.Data(DataIns.Lpm(No(d), true)), 3);
    NumIs(m.r[30], m.r[31]);
    RetiredFaults(Started(m, 2).(fault := true), 3);
  }

  /** LPM: R0 from Z. */
  lemma LpmR0Word(m: State)
    requires At(m, 0x95C8)
    ensures m.pc + 2 <= 0x8000
    ensures
      var z := Num16(m.r[30], m.r[31]);
      if z >= 0x8000 then Instruction(m) == Halted(Started(m, 2).(fault := true))
      else Instruction(m) == Retired(Started(m, 2).(r := m.r[0 := m.flash[z]]), 3)
  {
    hide Instruction, Retired, At, No, High, Reads, Num16, Join;
    LpmR0Reads();
    RunsAsRead(m, 0x95C8, Ins.Data(DataIns.Lpm(0, false)), 3);
    NumIs(m.r[30], m.r[31]);
    RetiredFaults(Started(m, 2).(fault := true), 3);
  }

  /** SPM: R1:R0 to flash at Z. */
  lemma SpmWord(m: State)
    requires At(m, 0x95E8)
    ensures m.pc + 2 <= 0x8000
    ensures
      var z := Num16(m.r[30], m.r[31]);
      Instruction(m) == Retired(
        if z + 1 >= 0x8000 then Started(m, 2) else Started(m, 2).(flash := m.flash[z := m.r[0]][z + 1 := m.r[1]]), 1)
  {
    hide Instruction, Retired, At, No, High, Reads, Num16, Join;
    SpmReads();
    RunsAsRead(m, 0x95E8, Ins.Data(DataIns.Spm), 1);
    NumIs(m.r[30], m.r[31]);
  }
}
