/**
 From the word in flash to one iteration's instruction: what the map reads, executed and retired. The
 modules ArithmeticWords, LogicWords, TransferWords and FlowWords say what every word does.
 */
module Instructions {
  import opened Bits
  import opened Alu
  import opened OpcodeTable
  import opened Decoder
  import opened OpcodeMap
  import opened DecoderLaws
  import opened Machine
  import TimerZero

  // Fields of an instruction word by their widths.
  type Field1 = x: Code | x < 2
  type Field2 = x: Code | x < 4
  type Field3 = x: Code | x < 8
  type Field4 = x: Code | x < 16
  type Field5 = x: Code | x < 32
  type Field6 = x: Code | x < 64
  type Field7 = x: Code | x < 128
  type Field8 = x: Code | x < 256
  type Field12 = x: Code | x < 4096

  /** R0 to R31. */
  function No(x: Field5): (r: Reg)
    ensures r == x as int
  {
    x as int
  }

  /** R16 to R31. */
  function High(x: Field4): (r: HighReg)
    ensures r == 16 + x as int
  {
    16 + x as int
  }

  /** R24, R26, R28 and R30. */
  function PairNo(x: Field2): (r: Pair)
    ensures r == 24 + 2 * x as int
  {
    24 + 2 * x as int
  }

  /** A register pair, low byte first. */
  function Num16(lo: Byte, hi: Byte): Word {
    lo + 256 * hi
  }

  lemma NumIs(lo: Byte, hi: Byte)
    ensures Join(lo, hi) == Num16(lo, hi)
  {
  }

  /** pc stands on word w, low byte first. */
  predicate At(m: State, w: Code) {
    m.pc + 1 < 0x8000 && m.flash[m.pc] as int + 256 * m.flash[m.pc + 1] as int == w as int
  }

  /** The machine with pc behind the instruction, as its body finds it. */
  function Started(m: State, size: nat): State
    requires m.pc + size <= 0x8000
  {
    m.(pc := m.pc + size, fault := false, extra := 0)
  }

  /** Time passes if there was no fault: the cycle counter and Timer0 move by the same amount. */
  function Retired(m: State, cycles: nat): Outcome
    requires cycles <= 4
  {
    if m.fault then Halted(m)
    else Running(m.(cycles := m.cycles + cycles + m.extra, timer := TimerZero.Ticked(m.timer, cycles + m.extra)))
  }

  /** What the map reads in a word. */
  function Reading(w: Code, second: Word): Ins
    requires KindOf(w).Some?
  {
    Operands(KindOf(w).value.op, KindOf(w).value.fmt, w, second)
  }

  lemma AtIsWord(m: State, w: Code)
    ensures At(m, w) <==> m.pc + 1 < FLASH_SIZE && FlashWord(m, m.pc) == w as int
  {
  }

  lemma RetiredIsAdvance(m: State, cycles: Cycles)
    ensures Retired(m, cycles) == if m.fault then Halted(m) else Running(Advance(m, cycles))
  {
  }

  lemma FetchOne(m: State, w: Code)
    requires At(m, w) && KindOf(w).Some? && WordsOf(KindOf(w).value.op) == 1
    ensures
      && Lookup(w).Some?
      && var row := Lookup(w).value;
      Fetch(m) == Some(Machine.Fetched(m.(pc := m.pc + 2), Operands(row.op, row.fmt, w, 0), row.cycles))
  {
    hide KindOf, Lookup, Operands, RowKind, WordsOf, CyclesOf, At, FlashWord;
    AtIsWord(m, w);
    TableReadsMap(w);
    assert FlashWord(m, m.pc) as Code == w;
  }

  /** A one-word instruction executes what the map reads, in the time that goes with the operation. */
  lemma OneWord(m: State, w: Code)
    requires At(m, w) && KindOf(w).Some? && WordsOf(KindOf(w).value.op) == 1
    ensures Instruction(m) == Retired(Execute(Started(m, 2), Reading(w, 0)), CyclesOf(KindOf(w).value.op))
  {
    hide KindOf, Lookup, Execute, Operands, RowKind, Fetch, Retired, Advance, At;
    assert m.pc + 1 < 0x8000 by { AtIsWord(m, w); }
    FetchOne(m, w);
    TableReadsMap(w);
    var row := Lookup(w).value;
    LookupRowActs(w, 0, Started(m, 2));
    RetiredIsAdvance(Execute(Started(m, 2), Reading(w, 0)), row.cycles);
  }

  lemma LookupRowActs(w: Code, second: Word, m: State)
    requires Lookup(w).Some? && KindOf(w).Some?
    ensures
      var row := Lookup(w).value;
      Execute(m, Operands(row.op, row.fmt, w, second)) == Execute(m, Reading(w, second))
  {
    hide KindOf, FirstMatch, Execute, Operands, RowKind;
    TableReadsMap(w);
    TableFacts(Lookup(w).value);
    RowActsAsKind(Lookup(w).value, w, second, m);
  }

  /** The second word of an instruction. */
  predicate Second(m: State, second: Word) {
    m.pc + 3 < 0x8000 && m.flash[m.pc + 2] as int + 256 * m.flash[m.pc + 3] as int == second
  }

  lemma FetchTwo(m: State, w: Code, second: Word)
    requires At(m, w) && Second(m, second) && KindOf(w).Some? && WordsOf(KindOf(w).value.op) == 2
    ensures
      && Lookup(w).Some?
      && var row := Lookup(w).value;
      Fetch(m) == Some(Machine.Fetched(m.(pc := m.pc + 4), Operands(row.op, row.fmt, w, second), row.cycles))
  {
    assert m.pc + 3 < FLASH_SIZE && FlashWord(m, m.pc + 2) == second;
    hide KindOf, FirstMatch, Operands, RowKind, At, FlashWord, Second;
    AtIsWord(m, w);
    TableReadsMap(w);
  }

  /** A two-word instruction gets its second word from flash. */
  lemma TwoWords(m: State, w: Code, second: Word)
    requires At(m, w) && Second(m, second) && KindOf(w).Some? && WordsOf(KindOf(w).value.op) == 2
    ensures Instruction(m) == Retired(Execute(Started(m, 4), Reading(w, second)), CyclesOf(KindOf(w).value.op))
  {
    assert m.pc + 3 < 0x8000;
    hide KindOf, Lookup, Execute, Operands, RowKind, Fetch, Retired, Advance, At, Second;
    FetchTwo(m, w, second);
    TableReadsMap(w);
    var row := Lookup(w).value;
    LookupRowActs(w, second, Started(m, 4));
    RetiredIsAdvance(Execute(Started(m, 4), Reading(w, second)), row.cycles);
  }

  /** pc at the end of flash, or an unknown word: the loop stops. */
  lemma NoInstruction(m: State, w: Code)
    ensures m.pc + 1 >= 0x8000 ==> Instruction(m) == Halted(m)
    ensures At(m, w) && KindOf(w).None? ==> Instruction(m) == Halted(m.(pc := m.pc + 2))
  {
    hide KindOf, Lookup, Operands, RowKind, WordsOf, CyclesOf, At, FlashWord, Execute, Advance;
    AtIsWord(m, w);
    TableReadsMap(w);
    if At(m, w) {
      assert FlashWord(m, m.pc) as Code == w;
    }
  }

  /** A two-word instruction whose second word is missing. */
  lemma NoSecondWord(m: State, w: Code)
    requires At(m, w) && KindOf(w).Some? && WordsOf(KindOf(w).value.op) == 2 && m.pc + 3 >= 0x8000
    ensures Instruction(m) == Halted(m.(pc := m.pc + 2))
  {
    hide KindOf, Lookup, Operands, RowKind, WordsOf, CyclesOf, At, FlashWord, Execute, Advance;
    AtIsWord(m, w);
    TableReadsMap(w);
    assert FlashWord(m, m.pc) as Code == w;
  }

  /** The map reads `ins` in the one-word instruction w. */
  predicate Reads(w: Code, ins: Ins, cycles: nat) {
    && KindOf(w).Some? && Reading(w, 0) == ins
    && WordsOf(KindOf(w).value.op) == 1 && CyclesOf(KindOf(w).value.op) == cycles
  }

  predicate ReadsTwo(w: Code, second: Word, ins: Ins, cycles: nat) {
    && KindOf(w).Some? && Reading(w, second) == ins
    && WordsOf(KindOf(w).value.op) == 2 && CyclesOf(KindOf(w).value.op) == cycles
  }

  lemma RunsAsRead(m: State, w: Code, ins: Ins, cycles: nat)
    requires At(m, w) && Reads(w, ins, cycles)
    ensures m.pc + 2 <= 0x8000 && cycles <= 4
    ensures Instruction(m) == Retired(Execute(Started(m, 2), ins), cycles)
  {
    assert m.pc + 2 <= 0x8000;
    hide At, KindOf, Operands, Execute, Retired, Instruction;
    OneWord(m, w);
  }

  lemma RunsTwoAsRead(m: State, w: Code, second: Word, ins: Ins, cycles: nat)
    requires At(m, w) && Second(m, second) && ReadsTwo(w, second, ins, cycles)
    ensures m.pc + 4 <= 0x8000 && cycles <= 4
    ensures Instruction(m) == Retired(Execute(Started(m, 4), ins), cycles)
  {
    assert m.pc + 4 <= 0x8000;
    hide At, Second, KindOf, Operands, Execute, Retired, Instruction;
    TwoWords(m, w, second);
  }
}
