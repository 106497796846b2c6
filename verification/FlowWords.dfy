/** What every branch, jump, call, return and skip word does. */
module FlowWords {
  import opened Bits
  import opened Alu
  import opened OpcodeTable
  import opened Decoder
  import opened OpcodeMap
  import opened DecoderLaws
  import opened OperandLaws
  import opened Machine
  import opened Instructions
  import opened WordReadings
  import opened DispatchLaws

  /** The flags by their bit numbers. */
  function Flag(f: Sreg, s: Field3): bool {
    [f.c, f.z, f.n, f.v, f.s, f.h, f.t, f.i][s as int]
  }

  lemma FlagIs(f: Sreg, s: Field3)
    ensures GetFlag(f, s as int) == Flag(f, s)
  {
  }

  lemma TargetIs(w: Code, second: Word)
    ensures Wrap16(2 * Target22(w, second)) == 2 * second % 65536
  {
    var high := ((w >> 4) & 0x3F) as int;
    assert 2 * Target22(w, second) == 65536 * (2 * high) + 2 * second;
  }

  /** LDS, STS, JMP and CALL. */
  predicate IsLong(w: Code) {
    w & 0xFC0F == 0x9000 || w & 0xFE0C == 0x940C
  }

  lemma LongIs(w: Code)
    requires KindOf(w).Some?
    ensures WordsOf(KindOf(w).value.op) == if IsLong(w) then 2 else 1
  {
    if w & 0xF000 == 0x9000 {
      assert KindOf(w) == Map9(w);
      hide KindOf;
      LongInNine(w);
    } else {
      hide Map9;
    }
  }

  lemma LongInNine(w: Code)
    requires w & 0xF000 == 0x9000 && Map9(w).Some?
    ensures WordsOf(Map9(w).value.op) == if IsLong(w) then 2 else 1
  {
  }

  /** Past the instruction w for one extra cycle, or a fault if the word is unknown. */
  function Past(m: State, w: Code): State {
    if KindOf(w).None? then m.(fault := true, extra := 1)
    else m.(pc := (m.pc + if IsLong(w) then 4 else 2) % 65536, extra := 1)
  }

  function Skipped(m: State): State {
    if m.pc + 1 >= 0x8000 then m.(fault := true, extra := 1) else Past(m, FlashWord(m, m.pc) as Code)
  }

  function SkippedIf(m: State, skip: bool): State {
    if skip then Skipped(m) else m
  }

  predicate Cleared(v: Byte, b: nat) {
    !Bit(v, b)
  }

  lemma SkipsWord(m: State, w: Code)
    requires m.pc + 1 < 0x8000 && FlashWord(m, m.pc) as Code == w
    ensures SkipNext(m).(extra := 1) == Past(m, w)
  {
    hide Lookup, KindOf, RowKind, WordsOf, CyclesOf, IsLong, FlashWord;
    TableReadsMap(w);
    if KindOf(w).Some? {
      LongIs(w);
    }
  }

  lemma SkipIs(m: State)
    ensures SkipNext(m).(extra := 1) == Skipped(m)
  {
    if m.pc + 1 < 0x8000 {
      hide SkipNext, Past, FlashWord;
      SkipsWord(m, FlashWord(m, m.pc) as Code);
    }
  }

  lemma SkipIfIs(m: State, skip: bool)
    ensures SkipIf(m, skip) == SkippedIf(m, skip)
  {
    hide Skipped, SkipNext;
    SkipIs(m);
  }

  lemma SbicIs(m: State, io: Reg, b: BitIndex)
    ensures
      var got := ReadData(m, io + 32);
      Execute(m, Ins.Flow(FlowIns.Sbic(io, b))) == SkippedIf(got.m, Cleared(got.value, b))
  {
    hide ReadData, SkipIf, SkippedIf, Bit;
    var got := ReadData(m, io + 32);
    SkipIfIs(got.m, !Bit(got.value, b));
  }

  lemma SbisIs(m: State, io: Reg, b: BitIndex)
    ensures
      var got := ReadData(m, io + 32);
      Execute(m, Ins.Flow(FlowIns.Sbis(io, b))) == SkippedIf(got.m, Bit(got.value, b))
  {
    hide ReadData, SkipIf, SkippedIf, Bit;
    var got := ReadData(m, io + 32);
    SkipIfIs(got.m, Bit(got.value, b));
  }

  lemma SbrcIs(m: State, d: Reg, b: BitIndex)
    ensures Execute(m, Ins.Flow(FlowIns.Sbrc(d, b))) == SkippedIf(m, Cleared(m.r[d], b))
  {
    hide SkipIf, SkippedIf, Bit;
    SkipIfIs(m, Cleared(m.r[d], b));
  }

  lemma SbrsIs(m: State, d: Reg, b: BitIndex)
    ensures Execute(m, Ins.Flow(FlowIns.Sbrs(d, b))) == SkippedIf(m, Bit(m.r[d], b))
  {
    hide SkipIf, SkippedIf, Bit;
    SkipIfIs(m, Bit(m.r[d], b));
  }

  lemma RcallIs(m: State, offset: int)
    requires -2048 <= offset < 2048
    ensures Execute(m, Ins.Flow(FlowIns.Rcall(offset))) == PushWord(m, m.pc).(pc := (m.pc + 2 * offset) % 65536)
  {
    hide PushWord;
    PushKeepsRequests(m, m.pc);
  }

  /** BRBS s,k with BRCS, BRLO, BREQ, BRMI, BRVS, BRLT, BRHS, BRTS and BRIE. */
  lemma BrbsWord(m: State, k: Field7, s: Field3)
    requires At(m, 0xF000 | (k << 3) | s)
    ensures m.pc + 2 <= 0x8000
    ensures
      var offset := if k as int < 64 then k as int else k as int - 128;
      Instruction(m) == Retired(
        if Flag(m.sreg, s) then Started(m, 2).(pc := (m.pc + 2 + 2 * offset) % 65536, extra := 1)
        else Started(m, 2), 1)
  {
    hide Instruction, Retired, At, No, High, Reads, GetFlag, Flag;
    BrbsReads(k, s);
    RunsAsRead(m, AssembleK7(0xF000, k, s), Ins.Flow(FlowIns.Brbs(SignedField(k as int, 64), s as int)), 1);
    FlagIs(m.sreg, s);
  }

  /** BRBC s,k with BRCC, BRSH, BRNE, BRPL, BRVC, BRGE, BRHC, BRTC and BRID. */
  lemma BrbcWord(m: State, k: Field7, s: Field3)
    requires At(m, 0xF400 | (k << 3) | s)
    ensures m.pc + 2 <= 0x8000
    ensures
      var offset := if k as int < 64 then k as int else k as int - 128;
      Instruction(m) == Retired(
        if !Flag(m.sreg, s) then Started(m, 2).(pc := (m.pc + 2 + 2 * offset) % 65536, extra := 1)
        else Started(m, 2), 1)
  {
    hide Instruction, Retired, At, No, High, Reads, GetFlag, Flag;
    BrbcReads(k, s);
    RunsAsRead(m, AssembleK7(0xF400, k, s), Ins.Flow(FlowIns.Brbc(SignedField(k as int, 64), s as int)), 1);
    FlagIs(m.sreg, s);
  }

  /** RJMP k. */
  lemma RjmpWord(m: State, k: Field12)
    requires At(m, 0xC000 | k)
    ensures m.pc + 2 <= 0x8000
    ensures
      var offset := if k as int < 2048 then k as int else k as int - 4096;
      Instruction(m) == Retired(Started(m, 2).(pc := (m.pc + 2 + 2 * offset) % 65536), 2)
  {
    hide Instruction, Retired, At, No, High, Reads;
    RjmpReads(k);
    RunsAsRead(m, AssembleK02(0xC000, k), Ins.Flow(FlowIns.Rjmp(SignedField(k as int, 2048))), 2);
  }

  /** RCALL k: the pc behind it is pushed. */
  lemma RcallWord(m: State, k: Field12)
    requires At(m, 0xD000 | k)
    ensures m.pc + 2 <= 0x8000
    ensures
      var offset := if k as int < 2048 then k as int else k as int - 4096;
      Instruction(m) == Retired(PushWord(Started(m, 2), m.pc + 2).(pc := (m.pc + 2 + 2 * offset) % 65536), 3)
  {
    hide Instruction, Retired, At, No, High, Reads, PushWord, Execute;
    RcallReads(k);
    RunsAsRead(m, AssembleK02(0xD000, k), Ins.Flow(FlowIns.Rcall(SignedField(k as int, 2048))), 3);
    RcallIs(Started(m, 2), SignedField(k as int, 2048));
  }

  /** JMP k: the second word is the target, in words. */
  lemma JmpWord(m: State, high: Field5, low: Field1, second: Word)
    requires At(m, 0x940C | (high << 4) | low) && Second(m, second)
    ensures m.pc + 4 <= 0x8000
    ensures
      Instruction(m) == Retired(Started(m, 4).(pc := 2 * second % 65536), 3)
  {
    hide Instruction, Retired, At, No, High, ReadsTwo, Second, Target22;
    JmpReads(high, low, second);
    var w := 0x940C | (high << 4) | low;
    RunsTwoAsRead(m, w, second, Ins.Flow(Jmp(Target22(w, second))), 3);
    TargetIs(w, second);
  }

  /** CALL k: the second word is the target, in words. */
  lemma CallWord(m: State, high: Field5, low: Field1, second: Word)
    requires At(m, 0x940E | (high << 4) | low) && Second(m, second)
    ensures m.pc + 4 <= 0x8000
    ensures
      Instruction(m) == Retired(PushWord(Started(m, 4), m.pc + 4).(pc := 2 * second % 65536), 4)
  {
    hide Instruction, Retired, At, No, High, ReadsTwo, Second, Target22, PushWord;
    CallReads(high, low, second);
    var w := 0x940E | (high << 4) | low;
    RunsTwoAsRead(m, w, second, Ins.Flow(Call(Target22(w, second))), 4);
    TargetIs(w, second);
  }

  /** IJMP. */
  lemma IjmpWord(m: State)
    requires At(m, 0x9409)
    ensures m.pc + 2 <= 0x8000
    ensures
      Instruction(m) == Retired(Started(m, 2).(pc := 2 * Num16(m.r[30], m.r[31]) % 65536), 2)
  {
    hide Instruction, Retired, At, No, High, Reads, Num16, Join;
    IjmpReads();
    RunsAsRead(m, 0x9409, Ins.Flow(FlowIns.Ijmp), 2);
    NumIs(m.r[30], m.r[31]);
  }

  /** ICALL; the target is read after the push. */
  lemma IcallWord(m: State)
    requires At(m, 0x9509)
    ensures m.pc + 2 <= 0x8000
    ensures
      var pushed := PushWord(Started(m, 2), m.pc + 2);
      Instruction(m) == Retired(pushed.(pc := 2 * Num16(pushed.r[30], pushed.r[31]) % 65536), 3)
  {
    hide Instruction, Retired, At, No, High, Reads, Num16, Join, PushWord;
    IcallReads();
    RunsAsRead(m, 0x9509, Ins.Flow(FlowIns.Icall), 3);
    NumIs(PushWord(Started(m, 2), m.pc + 2).r[30], PushWord(Started(m, 2), m.pc + 2).r[31]);
  }

  /** RET. */
  lemma RetWord(m: State)
    requires At(m, 0x9508)
    ensures m.pc + 2 <= 0x8000
    ensures
      var got := PopWord(Started(m, 2));
      Instruction(m) == Retired(got.m.(pc := got.value), 4)
  {
    hide Instruction, Retired, At, No, High, Reads, PopWord;
    RetReads();
    RunsAsRead(m, 0x9508, Ins.Flow(FlowIns.Ret), 4);
  }

  /** RETI. */
  lemma RetiWord(m: State)
    requires At(m, 0x9518)
    ensures m.pc + 2 <= 0x8000
    ensures
      var got := PopWord(Started(m, 2));
      Instruction(m) == Retired(got.m.(pc := got.value, sreg := got.m.sreg.(i := true)), 4)
  {
    hide Instruction, Retired, At, No, High, Reads, PopWord;
    RetiReads();
    RunsAsRead(m, 0x9518, Ins.Flow(FlowIns.Reti), 4);
  }

  /** CPSE Rd,Rr. */
  lemma CpseWord(m: State, d: Field5, r: Field5)
    requires At(m, 0x1000 | ((r & 0x10) << 5) | (d << 4) | (r & 0x0F))
    ensures m.pc + 2 <= 0x8000
    ensures
      Instruction(m) == Retired(SkippedIf(Started(m, 2), m.r[No(d)] == m.r[No(r)]), 1)
  {
    hide Instruction, Retired, At, No, High, Reads, SkipIf, SkippedIf;
    CpseReads(d, r);
    RunsAsRead(m, AssembleRdRr(0x1000, d, r), Ins.Flow(FlowIns.Cpse(No(d), No(r))), 1);
    SkipIfIs(Started(m, 2), m.r[No(d)] == m.r[No(r)]);
  }

  /** SBRC Rr,b. */
  lemma SbrcWord(m: State, d: Field5, b: Field3)
    requires At(m, 0xFC00 | (d << 4) | b)
    ensures m.pc + 2 <= 0x8000
    ensures
      Instruction(m) == Retired(SkippedIf(Started(m, 2), Cleared(m.r[No(d)], b as int)), 1)
  {
    hide Instruction, Retired, At, No, High, Reads, Execute, SkippedIf, Cleared, Bit;
    SbrcReads(d, b);
    RunsAsRead(m, AssembleRdB(0xFC00, d, b), Ins.Flow(FlowIns.Sbrc(No(d), b as int)), 1);
    SbrcIs(Started(m, 2), No(d), b as int);
  }

  /** SBRS Rr,b. */
  lemma SbrsWord(m: State, d: Field5, b: Field3)
    requires At(m, 0xFE00 | (d << 4) | b)
    ensures m.pc + 2 <= 0x8000
    ensures
      Instruction(m) == Retired(SkippedIf(Started(m, 2), Bit(m.r[No(d)], b as int)), 1)
  {
    hide Instruction, Retired, At, No, High, Reads, Execute, SkippedIf, Cleared, Bit;
    SbrsReads(d, b);
    RunsAsRead(m, AssembleRdB(0xFE00, d, b), Ins.Flow(FlowIns.Sbrs(No(d), b as int)), 1);
    SbrsIs(Started(m, 2), No(d), b as int);
  }

  /** SBIC A,b: data address A + 32, read with its side effects. */
  lemma SbicWord(m: State, a: Field5, b: Field3)
    requires At(m, 0x9900 | (a << 3) | b)
    ensures m.pc + 2 <= 0x8000
    ensures
      var got := ReadData(Started(m, 2), a as int + 32);
      Instruction(m) == Retired(SkippedIf(got.m, Cleared(got.value, b as int)), 1)
  {
    hide Instruction, Retired, At, No, High, Reads, Execute, SkippedIf, Cleared, Bit, ReadData, Started;
    SbicReads(a, b);
    RunsAsRead(m, AssembleIoB(0x9900, a, b), Ins.Flow(FlowIns.Sbic(a as int, b as int)), 1);
    SbicIs(Started(m, 2), a as int, b as int);
  }

  /** SBIS A,b: data address A + 32, read with its side effects. */
  lemma SbisWord(m: State, a: Field5, b: Field3)
    requires At(m, 0x9B00 | (a << 3) | b)
    ensures m.pc + 2 <= 0x8000
    ensures
      var got := ReadData(Started(m, 2), a as int + 32);
      Instruction(m) == Retired(SkippedIf(got.m, Bit(got.value, b as int)), 1)
  {
    hide Instruction, Retired, At, No, High, Reads, Execute, SkippedIf, Cleared, Bit, ReadData, Started;
    SbisReads(a, b);
    RunsAsRead(m, AssembleIoB(0x9B00, a, b), Ins.Flow(FlowIns.Sbis(a as int, b as int)), 1);
    SbisIs(Started(m, 2), a as int, b as int);
  }

  /** NOP. */
  lemma NopWord(m: State)
    requires At(m, 0x0000)
    ensures m.pc + 2 <= 0x8000
    ensures
      Instruction(m) == Retired(Started(m, 2), 1)
  {
    hide Instruction, Retired, At, No, High, Reads;
    NopReads();
    RunsAsRead(m, 0x0000, Ins.Flow(FlowIns.Nop), 1);
  }

  /** SLEEP. */
  lemma SleepWord(m: State)
    requires At(m, 0x9588)
    ensures m.pc + 2 <= 0x8000
    ensures
      Instruction(m) == Retired(Started(m, 2), 1)
  {
    hide Instruction, Retired, At, No, High, Reads;
    SleepReads();
    RunsAsRead(m, 0x9588, Ins.Flow(FlowIns.Nop), 1);
  }

  /** WDR. */
  lemma WdrWord(m: State)
    requires At(m, 0x95A8)
    ensures m.pc + 2 <= 0x8000
    ensures
      Instruction(m) == Retired(Started(m, 2), 1)
  {
    hide Instruction, Retired, At, No, High, Reads;
    WdrReads();
    RunsAsRead(m, 0x95A8, Ins.Flow(FlowIns.Nop), 1);
  }

  /** BREAK. */
  lemma BreakWord(m: State)
    requires At(m, 0x9598)
    ensures m.pc + 2 <= 0x8000
    ensures
      Instruction(m) == Retired(Started(m, 2), 1)
  {
    hide Instruction, Retired, At, No, High, Reads;
    BreakReads();
    RunsAsRead(m, 0x9598, Ins.Flow(FlowIns.Nop), 1);
  }
}
