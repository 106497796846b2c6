/**
 An independent reading of the opcode map of the instruction set, as a decision tree over the bits of
 a word. The ordered table is compared with it row by row.
 */
module OpcodeMap {
  import opened Bits
  import opened OpcodeTable
  import opened Decoder

  /** An operation of the instruction set: mnemonics that share behaviour share a kind. */
  datatype Kind = Kind(op: Op, fmt: Fmt)

  function Map0(w: Code): Option<Kind> {
    if w == 0 then Some(Kind(Control(NOP), NoOperands))
    else if w & 0xFF00 == 0 then None
    else if w & 0xFF00 == 0x0100 then Some(Kind(Bitwise(MOVW), Rd06Rr06))
    else if w & 0xFF00 == 0x0200 then Some(Kind(Arith(MULS), Rd06Rr06))
    else if w & 0xFF88 == 0x0300 then Some(Kind(Arith(MULSU), RdRrMpy))
    else if w & 0xFF88 == 0x0308 then Some(Kind(Arith(FMUL), RdRrMpy))
    else if w & 0xFF88 == 0x0380 then Some(Kind(Arith(FMULS), RdRrMpy))
    else if w & 0xFF88 == 0x0388 then Some(Kind(Arith(FMULSU), RdRrMpy))
    else if w & 0xFC00 == 0x0400 then Some(Kind(Arith(CPC), RdRr))
    else if w & 0xFC00 == 0x0800 then Some(Kind(Arith(SBC), RdRr))
    else Some(Kind(Arith(ADD), RdRr))
  }

  function Map12(w: Code): Kind {
    if w & 0xFC00 == 0x1000 then Kind(Control(CPSE), RdRr)
    else if w & 0xFC00 == 0x1400 then Kind(Arith(CP), RdRr)
    else if w & 0xFC00 == 0x1800 then Kind(Arith(SUB), RdRr)
    else if w & 0xFC00 == 0x1C00 then Kind(Arith(ADC), RdRr)
    else if w & 0xFC00 == 0x2000 then Kind(Bitwise(AND), RdRr)
    else if w & 0xFC00 == 0x2400 then Kind(Bitwise(EOR), RdRr)
    else if w & 0xFC00 == 0x2800 then Kind(Bitwise(OR), RdRr)
    else Kind(Bitwise(MOV), RdRr)
  }

  /** 10q0 qq?d: bit 9 tells a store from a load and bit 3 tells Y from Z. */
  function MapDisplacement(w: Code): Kind {
    if w & 0x0208 == 0x0008 then Kind(Mem(LD_Y), LddFamily)
    else if w & 0x0208 == 0 then Kind(Mem(LD_Z), LddFamily)
    else if w & 0x0208 == 0x0208 then Kind(Mem(ST_Y), LddFamily)
    else Kind(Mem(ST_Z), LddFamily)
  }

  /** 1001 000d: loads and POP, selected by the low nibble. */
  function MapLoad(w: Code): Option<Kind> {
    if w & 0xF == 0 then Some(Kind(Mem(LDS), LdsSts))
    else if w & 0xF == 1 || w & 0xF == 2 then Some(Kind(Mem(LD_Z), LdFamily))
    else if w & 0xF == 4 || w & 0xF == 5 then Some(Kind(Mem(LPM), RdOnly))
    else if w & 0xF == 9 || w & 0xF == 10 then Some(Kind(Mem(LD_Y), LdFamily))
    else if w & 0xF == 15 then Some(Kind(Mem(POP), RdOnly))
    else if w & 0xC == 0xC then Some(Kind(Mem(LD_X), LdFamily))
    else None
  }

  /** 1001 001r: stores and PUSH. */
  function MapStore(w: Code): Option<Kind> {
    if w & 0xF == 0 then Some(Kind(Mem(STS), LdsSts))
    else if w & 0xF == 1 || w & 0xF == 2 then Some(Kind(Mem(ST_Z), LdFamily))
    else if w & 0xF == 9 || w & 0xF == 10 then Some(Kind(Mem(ST_Y), LdFamily))
    else if w & 0xF == 15 then Some(Kind(Mem(PUSH), RdOnly))
    else if w & 0xC == 0xC then Some(Kind(Mem(ST_X), LdFamily))
    else None
  }

  /** 1001 010x xxxx 1000. */
  function MapControl(w: Code): Option<Kind> {
    if w & 0x0180 == 0 then Some(Kind(Flags(BSET), BitOnly))
    else if w & 0x0180 == 0x0080 then Some(Kind(Flags(BCLR), BitOnly))
    else if w == 0x9508 then Some(Kind(Control(RET), NoOperands))
    else if w == 0x9518 then Some(Kind(Control(RETI), NoOperands))
    else if w == 0x9588 || w == 0x9598 || w == 0x95A8 then Some(Kind(Control(NOP), NoOperands))
    else if w == 0x95C8 then Some(Kind(Mem(LPM), NoOperands))
    else if w == 0x95E8 then Some(Kind(Mem(SPM_E), NoOperands))
    else None
  }

  /** 1001 010d: one-register operations, absolute jumps and calls. */
  function MapOneRegister(w: Code): Option<Kind> {
    if w & 0xF == 0 then Some(Kind(Bitwise(COM), RdOnly))
    else if w & 0xF == 1 then Some(Kind(Arith(NEG), RdOnly))
    else if w & 0xF == 2 then Some(Kind(Bitwise(SWAP), RdOnly))
    else if w & 0xF == 3 then Some(Kind(Arith(INC), RdOnly))
    else if w & 0xF == 5 then Some(Kind(Bitwise(ASR), RdOnly))
    else if w & 0xF == 6 then Some(Kind(Bitwise(LSR), RdOnly))
    else if w & 0xF == 7 then Some(Kind(Bitwise(ROR), RdOnly))
    else if w & 0xF == 8 then MapControl(w)
    else if w == 0x9409 then Some(Kind(Control(IJMP), NoOperands))
    else if w == 0x9509 then Some(Kind(Control(ICALL), NoOperands))
    else if w & 0xF == 10 then Some(Kind(Arith(DEC), RdOnly))
    else if w & 0xE == 0xC then Some(Kind(Control(JMP), K22))
    else if w & 0xE == 0xE then Some(Kind(Control(CALL), K22Call))
    else None
  }

  function Map9(w: Code): Option<Kind> {
    if w & 0x0E00 == 0 then MapLoad(w)
    else if w & 0x0E00 == 0x0200 then MapStore(w)
    else if w & 0x0E00 == 0x0400 then MapOneRegister(w)
    else if w & 0x0F00 == 0x0600 then Some(Kind(Arith(ADIW), Rd06K6))
    else if w & 0x0F00 == 0x0700 then Some(Kind(Arith(SBIW), Rd06K6))
    else if w & 0x0F00 == 0x0800 then Some(Kind(Mem(CBI), IoB))
    else if w & 0x0F00 == 0x0900 then Some(Kind(Control(SBIC), IoB))
    else if w & 0x0F00 == 0x0A00 then Some(Kind(Mem(SBI), IoB))
    else if w & 0x0F00 == 0x0B00 then Some(Kind(Control(SBIS), IoB))
    else Some(Kind(Arith(MUL), RdRr))
  }

  function MapF(w: Code): Option<Kind> {
    if w & 0x0C00 == 0 then Some(Kind(Cond(BRBS), K7))
    else if w & 0x0C00 == 0x0400 then Some(Kind(Cond(BRBC), K7))
    else if w & 0x0E08 == 0x0800 then Some(Kind(Flags(BLD), RdB))
    else if w & 0x0E08 == 0x0A00 then Some(Kind(Flags(BST), RdB))
    else if w & 0x0E08 == 0x0C00 then Some(Kind(Control(SBRC), RrB))
    else if w & 0x0E08 == 0x0E00 then Some(Kind(Control(SBRS), RrB))
    else None
  }

  /** The kind of a word; None for the words that are no instruction. */
  function KindOf(w: Code): Option<Kind> {
    if w & 0xF000 == 0 then Map0(w)
    else if w & 0xF000 == 0x1000 || w & 0xF000 == 0x2000 then Some(Map12(w))
    else if w & 0xF000 == 0x3000 then Some(Kind(Arith(CPI), RdK8))
    else if w & 0xF000 == 0x4000 then Some(Kind(Arith(SBCI), RdK8))
    else if w & 0xF000 == 0x5000 then Some(Kind(Arith(SUBI), RdK8))
    else if w & 0xF000 == 0x6000 then Some(Kind(Bitwise(ORI), RdK8))
    else if w & 0xF000 == 0x7000 then Some(Kind(Bitwise(ANDI), RdK8))
    else if w & 0xD000 == 0x8000 then Some(MapDisplacement(w))
    else if w & 0xF000 == 0x9000 then Map9(w)
    else if w & 0xF800 == 0xB000 then Some(Kind(Mem(IN), RdIo))
    else if w & 0xF800 == 0xB800 then Some(Kind(Mem(OUT), IoRr))
    else if w & 0xF000 == 0xC000 then Some(Kind(Control(RJMP), K02))
    else if w & 0xF000 == 0xD000 then Some(Kind(Control(RCALL), K02Call))
    else if w & 0xF000 == 0xE000 then Some(Kind(Bitwise(LDI), RdK8))
    else MapF(w)
  }

  /** The operation that a mnemonic stands for: SER is the LDI of 0xFF. */
  function Canonical(op: Op): Op {
    if op == Bitwise(SER) then Bitwise(LDI) else Handler(op)
  }

  /** The base-mode rows of Y and Z, in the 10q0 block, are the displacement form with q = 0. */
  predicate IsBaseMode(row: Row) {
    row.fmt.LdFamily? && row.code & 0xD000 == 0x8000
  }

  predicate IsFlagAlias(row: Row) {
    row.fmt.NoOperands? && (Canonical(row.op) == Flags(BSET) || Canonical(row.op) == Flags(BCLR))
  }

  function RowKind(row: Row): Kind {
    Kind(Canonical(row.op),
         if IsBaseMode(row) then LddFamily else if IsFlagAlias(row) then BitOnly else row.fmt)
  }

  /** LD X and ST X with all four low bits set: the pattern of POP and PUSH. */
  predicate Shadowed(row: Row, w: Code) {
    (row.op == Mem(LD_X) || row.op == Mem(ST_X)) && w & 0xF == 0xF
  }

  ghost predicate Agrees(row: Row, w: Code) {
    Matches(row, w) && !Shadowed(row, w) ==> KindOf(w) == Some(RowKind(row))
  }
}
