/** Skips pass over exactly one instruction, of one word or two. */
module SkipLaws {
  import opened Bits
  import opened Decoder
  import opened OpcodeTable
  import opened OpcodeMap
  import opened DecoderLaws
  import opened Machine

  /** The word at pc is no instruction, or there is no word. */
  predicate NothingToSkip(m: State) {
    m.pc + 1 >= FLASH_SIZE || KindOf(FlashWord(m, m.pc) as Code).None?
  }

  /**
   A skip leaves pc where fetching would have left it, without executing; it faults exactly where the
   opcode map knows no instruction.
   */
  lemma SkipPassesOneInstruction(m: State)
    requires !m.fault
    ensures Fetch(m).Some? ==> SkipNext(m) == m.(pc := Fetch(m).value.m.pc)
    ensures SkipNext(m).fault <==> NothingToSkip(m)
    ensures NothingToSkip(m) ==> SkipNext(m).pc == m.pc
  {
    hide Lookup, Operands, KindOf, RowKind, WordsOf, CyclesOf;
    if m.pc + 1 < FLASH_SIZE {
      TableReadsMap(FlashWord(m, m.pc) as Code);
    }
  }

  /**
   SBRC and SBRS pass over the next instruction exactly when the register bit has the wanted value, for
   one extra cycle.
   */
  lemma BitSkips(m: State, d: Reg, b: BitIndex)
    requires !m.fault && Fetch(m).Some?
    ensures
      var over := m.(pc := Fetch(m).value.m.pc, extra := 1);
      && ExecuteFlow(m, Sbrc(d, b)) == (if Bit(m.r[d], b) then m else over)
      && ExecuteFlow(m, Sbrs(d, b)) == (if Bit(m.r[d], b) then over else m)
  {
    hide Fetch, SkipNext;
    SkipPassesOneInstruction(m);
  }
}
