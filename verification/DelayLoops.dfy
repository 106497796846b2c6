/** Busy-wait loops in flash: they terminate from every count and take an exact number of cycles. */
module DelayLoops {
  import opened Bits
  import opened Alu
  import opened OpcodeTable
  import opened Decoder
  import opened OpcodeMap
  import opened DecoderLaws
  import opened Instructions
  import opened Machine
  import opened Runs
  import TimerZero

  // ------------------------------------------------------------------ one instruction, interrupts off

  lemma StepWithoutInterrupts(m: State)
    requires !m.sreg.i
    ensures Step(m) == Instruction(BeforeService(m))
    ensures BeforeService(m) == m.(uart := BeforeService(m).uart, pending := BeforeService(m).pending,
                                   nextPoll := BeforeService(m).nextPoll)
  {
    hide Instruction, TimerRequests;
  }

  /** pc stands on word w, which the opcode map reads as a one-word instruction. */
  predicate Facing(m: State, w: Code) {
    && m.pc + 1 < FLASH_SIZE && FlashWord(m, m.pc) == w as int
    && KindOf(w).Some? && WordsOf(KindOf(w).value.op) == 1
  }

  /** What the loop executes is what the opcode map says, in the time it says. */
  lemma InstructionByMap(m: State, w: Code)
    requires Facing(m, w)
    ensures
      var m' := Execute(Started(m, 2), Reading(w, 0));
      Instruction(m) == if m'.fault then Halted(m') else Running(Advance(m', CyclesOf(KindOf(w).value.op)))
  {
    hide KindOf, Execute, Operands, Instruction, Retired, Advance;
    AtIsWord(m, w);
    OneWord(m, w);
    RetiredIsAdvance(Execute(Started(m, 2), Reading(w, 0)), CyclesOf(KindOf(w).value.op));
  }

  // ------------------------------------------------------------------ the instructions of a delay loop

  /** BRNE to the instruction before it. */
  const BRNE_BACK: Code := 0xF7F1

  /** SBIW with the constant 1, on any of the four pairs; 0x9701 is SBIW R24,1. */
  predicate IsSbiwOne(w: Code) {
    w & 0xFFCF == 0x9701
  }

  /** DEC of any register. */
  predicate IsDec(w: Code) {
    w & 0xFE0F == 0x940A
  }

  lemma ReadSbiw(w: Code)
    requires IsSbiwOne(w)
    ensures KindOf(w) == Some(Kind(Arith(SBIW), Rd06K6)) && Reading(w, 0) == Arithmetic(Sbiw(PairD(w), 1))
  {
    assert ((w >> 2) & 0x30) | (w & 0x0F) == 1;
  }

  lemma ReadDec(w: Code)
    requires IsDec(w)
    ensures KindOf(w) == Some(Kind(Arith(DEC), RdOnly)) && Reading(w, 0) == Arithmetic(Dec(RegD(w)))
  {
  }

  lemma ReadBack()
    ensures KindOf(BRNE_BACK) == Some(Kind(Cond(BRBC), K7)) && Reading(BRNE_BACK, 0) == Flow(Brbc(-2, Z_BIT))
  {
    assert (BRNE_BACK >> 3) & 0x7F == 0x7E && BRNE_BACK & 0x07 == 1;
  }

  /** Memories and SP are untouched and interrupts stay off. */
  predicate SameMemory(m: State, m': State) {
    m'.flash == m.flash && m'.sram == m.sram && m'.sp == m.sp && m'.sreg.i == m.sreg.i
  }

  lemma SbiwStep(m: State, w: Code)
    requires !m.sreg.i && Facing(m, w) && IsSbiwOne(w)
    ensures
      var m', o := Step(m).m, Alu.Sbiw(PairValue(m, PairD(w)), 1, m.sreg);
      && Step(m).Running? && SameMemory(m, m')
      && m'.pc == m.pc + 2 && m'.cycles == m.cycles + 2
      && m'.r == PutPair(m, PairD(w), o.value).r && m'.sreg == o.sreg
  {
    hide Instruction, BeforeService, KindOf, Operands, TimerZero.Ticked;
    StepWithoutInterrupts(m);
    ReadSbiw(w);
    InstructionByMap(BeforeService(m), w);
  }

  lemma DecStep(m: State, w: Code)
    requires !m.sreg.i && Facing(m, w) && IsDec(w)
    ensures
      var m', o := Step(m).m, Alu.Dec(m.r[RegD(w)], m.sreg);
      && Step(m).Running? && SameMemory(m, m')
      && m'.pc == m.pc + 2 && m'.cycles == m.cycles + 1
      && m'.r == m.r[RegD(w) := o.value] && m'.sreg == o.sreg
  {
    hide Instruction, BeforeService, KindOf, Operands, TimerZero.Ticked;
    StepWithoutInterrupts(m);
    ReadDec(w);
    InstructionByMap(BeforeService(m), w);
  }

  lemma BackStep(m: State)
    requires !m.sreg.i && Facing(m, BRNE_BACK) && m.pc >= 2
    ensures
      var m' := Step(m).m;
      && Step(m).Running? && SameMemory(m, m') && m'.r == m.r && m'.sreg == m.sreg
      && m'.pc == (if m.sreg.z then m.pc + 2 else m.pc - 2)
      && m'.cycles == m.cycles + (if m.sreg.z then 1 else 2)
  {
    hide Instruction, BeforeService, KindOf, Operands, TimerZero.Ticked;
    StepWithoutInterrupts(m);
    ReadBack();
    InstructionByMap(BeforeService(m), BRNE_BACK);
  }

  lemma DecCounts(b: Byte, f: Sreg)
    ensures
      var o := Alu.Dec(b, f);
      o.value == (if b == 0 then 0xFF else b - 1) && o.sreg.z == (o.value == 0) && o.sreg.i == f.i
  {
  }

  // ------------------------------------------------------------------ whole loops

  /** At pc: instruction w, then BRNE back to it; interrupts are off. */
  predicate InLoop(m: State, w: Code) {
    && !m.sreg.i && m.pc + 3 < FLASH_SIZE
    && FlashWord(m, m.pc) == w as int && FlashWord(m, m.pc + 2) == BRNE_BACK as int
  }

  lemma LoopStays(m: State, m': State, w: Code)
    requires InLoop(m, w) && SameMemory(m, m') && m'.pc == m.pc
    ensures InLoop(m', w)
  {
  }

  /** Rounds of a loop that counts down to zero from v, with zero meaning a full turn. */
  function Rounds(v: nat, turn: nat): nat {
    if v == 0 then turn else v
  }

  lemma TwoSteps(m: State, inputs: seq<seq<Byte>>)
    requires |inputs| >= 2
    requires Step(InjectAll(m, inputs[0])).Running?
    requires Step(InjectAll(Step(InjectAll(m, inputs[0])).m, inputs[1])).Running?
    ensures Run(m, inputs) == Run(Step(InjectAll(Step(InjectAll(m, inputs[0])).m, inputs[1])).m, inputs[2..])
  {
    hide Step, InjectAll;
    assert inputs[1..][0] == inputs[1] && inputs[1..][1..] == inputs[2..];
  }

  /** Counting down with wrap-around. */
  function Down(v: Word): (r: Word)
    ensures r == Wrap16(v - 1)
  {
    if v == 0 then 0xFFFF else v - 1
  }

  /** One round of SBIW;BRNE. */
  lemma WordRound(m: State, w: Code, inputs: seq<seq<Byte>>) returns (m': State)
    requires InLoop(m, w) && IsSbiwOne(w) && |inputs| >= 2
    ensures Run(m, inputs) == Run(m', inputs[2..]) && SameMemory(m, m')
    ensures
      var v := Down(PairValue(m, PairD(w)));
      && m'.r == PutPair(m, PairD(w), v).r
      && m'.pc == (if v == 0 then m.pc + 4 else m.pc)
      && m'.cycles == m.cycles + (if v == 0 then 3 else 4)
  {
    hide Step, KindOf, Run;
    ReadSbiw(w);
    ReadBack();
    var start := InjectAll(m, inputs[0]);
    InjectTouchesUartOnly(m, inputs[0]);
    SbiwStep(start, w);
    var middle := InjectAll(Step(start).m, inputs[1]);
    InjectTouchesUartOnly(Step(start).m, inputs[1]);
    BackStep(middle);
    TwoSteps(m, inputs);
    m' := Step(middle).m;
  }

  /**
   SBIW Rp,1;BRNE back, from any word and with interrupts off: it runs n rounds (n is the word, or
   65536 for 0), takes exactly 4n - 1 cycles and leaves the pair zero, whatever arrives meanwhile.
   */
  lemma {:induction false} WordDelay(m: State, w: Code, inputs: seq<seq<Byte>>)
    requires InLoop(m, w) && IsSbiwOne(w)
    requires |inputs| == 2 * Rounds(PairValue(m, PairD(w)), 0x1_0000)
    ensures
      var n := Rounds(PairValue(m, PairD(w)), 0x1_0000);
      && Run(m, inputs).Running? && SameMemory(m, Run(m, inputs).m)
      && Run(m, inputs).m.pc == m.pc + 4
      && Run(m, inputs).m.cycles == m.cycles + 4 * n - 1
      && Run(m, inputs).m.r == PutPair(m, PairD(w), 0).r
    decreases |inputs|
  {
    hide Run, PairD, PutPair, PairValue, IsSbiwOne, FlashWord, Wrap16;
    var p := PairD(w);
    var v := PairValue(m, p);
    var m' := WordRound(m, w, inputs);
    PairReads(m, m', p, Down(v));
    if v == 1 {
      RunNothing(m', inputs[2..]);
    } else {
      LoopStays(m, m', w);
      WordDelay(m', w, inputs[2..]);
    }
  }

  lemma PairReads(m: State, m': State, p: Pair, v: Word)
    requires m'.r == PutPair(m, p, v).r
    ensures PairValue(m', p) == v
    ensures forall u: Word :: PutPair(m', p, u).r == PutPair(m, p, u).r
  {
  }

  lemma RunNothing(m: State, inputs: seq<seq<Byte>>)
    requires |inputs| == 0
    ensures Run(m, inputs) == Running(m)
  {
  }

  /** One round of DEC;BRNE. */
  lemma ByteRound(m: State, w: Code, inputs: seq<seq<Byte>>) returns (m': State)
    requires InLoop(m, w) && IsDec(w) && |inputs| >= 2
    ensures Run(m, inputs) == Run(m', inputs[2..]) && SameMemory(m, m')
    ensures
      var v := if m.r[RegD(w)] == 0 then 0xFF else m.r[RegD(w)] - 1;
      && m'.r == m.r[RegD(w) := v]
      && m'.pc == (if v == 0 then m.pc + 4 else m.pc)
      && m'.cycles == m.cycles + (if v == 0 then 2 else 3)
  {
    hide Step, KindOf, Run, RegD, Alu.Dec;
    ReadDec(w);
    ReadBack();
    var start := InjectAll(m, inputs[0]);
    InjectTouchesUartOnly(m, inputs[0]);
    DecStep(start, w);
    DecCounts(m.r[RegD(w)], m.sreg);
    var middle := InjectAll(Step(start).m, inputs[1]);
    InjectTouchesUartOnly(Step(start).m, inputs[1]);
    BackStep(middle);
    TwoSteps(m, inputs);
    m' := Step(middle).m;
  }

  /** DEC Rd;BRNE back costs 3n - 1 cycles, with n in 1..256. */
  lemma {:induction false} ByteDelay(m: State, w: Code, inputs: seq<seq<Byte>>)
    requires InLoop(m, w) && IsDec(w)
    requires |inputs| == 2 * Rounds(m.r[RegD(w)], 0x100)
    ensures
      var n := Rounds(m.r[RegD(w)], 0x100);
      && Run(m, inputs).Running? && SameMemory(m, Run(m, inputs).m)
      && Run(m, inputs).m.pc == m.pc + 4
      && Run(m, inputs).m.cycles == m.cycles + 3 * n - 1
      && Run(m, inputs).m.r == m.r[RegD(w) := 0]
    decreases |inputs|
  {
    hide Run, RegD, IsDec, FlashWord;
    var m' := ByteRound(m, w, inputs);
    if m.r[RegD(w)] == 1 {
      RunNothing(m', inputs[2..]);
    } else {
      LoopStays(m, m', w);
      ByteDelay(m', w, inputs[2..]);
    }
  }
}
