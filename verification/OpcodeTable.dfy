/** The opcode table, row by row in the order in which the decoder scans it. */
module OpcodeTable {
  /** A 16-bit instruction word. */
  type Code = bv16

  /** Mnemonics, by group. */
  datatype ArithOp = ADC | ADD | ADIW | DEC | INC | MUL | MULS | MULSU | FMUL | FMULS | FMULSU | NEG | SBIW
    | SBC | SBCI | SUB | SUBI | LSL | ROL | CP | CPC | CPI
  datatype BitwiseOp = AND | ANDI | CBR | CLR | COM | EOR | OR | ORI | SBR | SER | SWAP | TST | ASR | LSR | ROR
    | MOV | MOVW | LDI
  datatype MemOp = LD_X | LD_Y | LD_Z | LDS | LPM | IN | OUT | POP | PUSH | ST_X | ST_Y | ST_Z | STS | SPM_E
    | CBI | SBI
  datatype CondOp = BRBC | BRBS | BRCC | BRCS | BREQ | BRGE | BRHC | BRHS | BRID | BRIE | BRLO | BRLT | BRMI
    | BRNE | BRPL | BRSH | BRTC | BRTS | BRVC | BRVS
  datatype ControlOp = RJMP | JMP | IJMP | RCALL | CALL | ICALL | RET | RETI | CPSE | SBIC | SBIS | SBRC | SBRS
    | NOP | SLEEP | WDR | BREAK
  datatype FlagsOp = BSET | BCLR | BLD | BST | SEC | SEZ | SEN | SEV | SES | SEH | SET | SEI | CLC | CLZ | CLN
    | CLV | CLS | CLH | CLT | CLI

  datatype Op =
    | Arith(a: ArithOp) | Bitwise(b: BitwiseOp) | Mem(m: MemOp)
    | Cond(c: CondOp) | Control(k: ControlOp) | Flags(f: FlagsOp)

  /** Operand encodings. */
  datatype Fmt = NoOperands | RdRr | RdK8 | RdOnly | RdRrMpy | Rd06K6 | Rd06Rr06 | BitOnly | RdB | RrB
    | IoB | RdIo | IoRr | K7 | K02 | K02Call | K22 | K22Call | LdFamily | LddFamily | LdsSts

  /** A word w decodes to `op` when `w & mask == code`. */
  datatype Row = Row(mask: Code, code: Code, op: Op, fmt: Fmt, words: Words, cycles: Cycles)

  type Words = x: int | 1 <= x <= 2 witness 1
  type Cycles = x: int | 1 <= x <= 4 witness 1

  const ARITHMETIC_ROWS: seq<Row> := [
    Row(0xFC00, 0x1C00, Arith(ADC), RdRr, 1, 1),
    Row(0xFC00, 0x0C00, Arith(ADD), RdRr, 1, 1),
    Row(0xFF00, 0x9600, Arith(ADIW), Rd06K6, 1, 2),
    Row(0xFE0F, 0x9405, Bitwise(ASR), RdOnly, 1, 1),
    Row(0xFE0F, 0x940A, Arith(DEC), RdOnly, 1, 1),
    Row(0xFE0F, 0x9403, Arith(INC), RdOnly, 1, 1),
    Row(0xFC00, 0x9C00, Arith(MUL), RdRr, 1, 2),
    Row(0xFF00, 0x0200, Arith(MULS), Rd06Rr06, 1, 2),
    Row(0xFF88, 0x0300, Arith(MULSU), RdRrMpy, 1, 2),
    Row(0xFF88, 0x0308, Arith(FMUL), RdRrMpy, 1, 2),
    Row(0xFF88, 0x0380, Arith(FMULS), RdRrMpy, 1, 2),
    Row(0xFF88, 0x0388, Arith(FMULSU), RdRrMpy, 1, 2),
    Row(0xFE0F, 0x9401, Arith(NEG), RdOnly, 1, 1),
    Row(0xFF00, 0x9700, Arith(SBIW), Rd06K6, 1, 2),
    Row(0xFC00, 0x0800, Arith(SBC), RdRr, 1, 1),
    Row(0xF000, 0x4000, Arith(SBCI), RdK8, 1, 1),
    Row(0xFC00, 0x1800, Arith(SUB), RdRr, 1, 1),
    Row(0xF000, 0x5000, Arith(SUBI), RdK8, 1, 1)
  ]

  const LOGIC_ROWS: seq<Row> := [
    Row(0xFC00, 0x2000, Bitwise(AND), RdRr, 1, 1),
    Row(0xF000, 0x7000, Bitwise(ANDI), RdK8, 1, 1),
    Row(0xF000, 0x7000, Bitwise(CBR), RdK8, 1, 1),
    Row(0xFC00, 0x2400, Bitwise(CLR), RdRr, 1, 1),
    Row(0xFE0F, 0x9400, Bitwise(COM), RdOnly, 1, 1),
    Row(0xFC00, 0x2400, Bitwise(EOR), RdRr, 1, 1),
    Row(0xFC00, 0x2800, Bitwise(OR), RdRr, 1, 1),
    Row(0xF000, 0x6000, Bitwise(ORI), RdK8, 1, 1),
    Row(0xF000, 0x6000, Bitwise(SBR), RdK8, 1, 1),
    Row(0xFF0F, 0xEF0F, Bitwise(SER), RdK8, 1, 1),
    Row(0xFE0F, 0x9402, Bitwise(SWAP), RdOnly, 1, 1)
  ]

  const SHIFT_ROWS: seq<Row> := [
    Row(0xFC00, 0x0C00, Arith(LSL), RdRr, 1, 1),
    Row(0xFE0F, 0x9406, Bitwise(LSR), RdOnly, 1, 1),
    Row(0xFC00, 0x1C00, Arith(ROL), RdRr, 1, 1),
    Row(0xFE0F, 0x9407, Bitwise(ROR), RdOnly, 1, 1)
  ]

  const COMPARE_ROWS: seq<Row> := [
    Row(0xFC00, 0x1400, Arith(CP), RdRr, 1, 1),
    Row(0xFC00, 0x0400, Arith(CPC), RdRr, 1, 1),
    Row(0xF000, 0x3000, Arith(CPI), RdK8, 1, 1),
    Row(0xFC00, 0x1000, Control(CPSE), RdRr, 1, 1),
    Row(0xFC00, 0x2000, Bitwise(TST), RdRr, 1, 1)
  ]

  const MOVE_ROWS: seq<Row> := [
    Row(0xFC00, 0x2C00, Bitwise(MOV), RdRr, 1, 1),
    Row(0xFF00, 0x0100, Bitwise(MOVW), Rd06Rr06, 1, 1),
    Row(0xF000, 0xE000, Bitwise(LDI), RdK8, 1, 1)
  ]

  const POP_ROWS: seq<Row> := [
    Row(0xFE0F, 0x900F, Mem(POP), RdOnly, 1, 2)
  ]

  const LOAD_ROWS: seq<Row> := [
    Row(0xFE0C, 0x900C, Mem(LD_X), LdFamily, 1, 2),
    Row(0xD208, 0x8008, Mem(LD_Y), LddFamily, 1, 2),
    Row(0xFE0F, 0x8008, Mem(LD_Y), LdFamily, 1, 2),
    Row(0xFE0F, 0x9009, Mem(LD_Y), LdFamily, 1, 2),
    Row(0xFE0F, 0x900A, Mem(LD_Y), LdFamily, 1, 2),
    Row(0xD208, 0x8000, Mem(LD_Z), LddFamily, 1, 2),
    Row(0xFE0F, 0x8000, Mem(LD_Z), LdFamily, 1, 2),
    Row(0xFE0F, 0x9001, Mem(LD_Z), LdFamily, 1, 2),
    Row(0xFE0F, 0x9002, Mem(LD_Z), LdFamily, 1, 2),
    Row(0xFE0F, 0x9000, Mem(LDS), LdsSts, 2, 2),
    Row(0xFFFF, 0x95C8, Mem(LPM), NoOperands, 1, 3),
    Row(0xFE0F, 0x9004, Mem(LPM), RdOnly, 1, 3),
    Row(0xFE0F, 0x9005, Mem(LPM), RdOnly, 1, 3),
    Row(0xF800, 0xB000, Mem(IN), RdIo, 1, 1),
    Row(0xF800, 0xB800, Mem(OUT), IoRr, 1, 1)
  ]

  const PUSH_ROWS: seq<Row> := [
    Row(0xFE0F, 0x920F, Mem(PUSH), RdOnly, 1, 2)
  ]

  const STORE_ROWS: seq<Row> := [
    Row(0xFE0C, 0x920C, Mem(ST_X), LdFamily, 1, 2),
    Row(0xD208, 0x8208, Mem(ST_Y), LddFamily, 1, 2),
    Row(0xFE0F, 0x8208, Mem(ST_Y), LdFamily, 1, 2),
    Row(0xFE0F, 0x9209, Mem(ST_Y), LdFamily, 1, 2),
    Row(0xFE0F, 0x920A, Mem(ST_Y), LdFamily, 1, 2),
    Row(0xD208, 0x8200, Mem(ST_Z), LddFamily, 1, 2),
    Row(0xFE0F, 0x8200, Mem(ST_Z), LdFamily, 1, 2),
    Row(0xFE0F, 0x9201, Mem(ST_Z), LdFamily, 1, 2),
    Row(0xFE0F, 0x9202, Mem(ST_Z), LdFamily, 1, 2),
    Row(0xFE0F, 0x9200, Mem(STS), LdsSts, 2, 2)
  ]

  const BRANCH_ROWS: seq<Row> := [
    Row(0xFC00, 0xF400, Cond(BRBC), K7, 1, 1),
    Row(0xFC00, 0xF000, Cond(BRBS), K7, 1, 1),
    Row(0xFC07, 0xF400, Cond(BRCC), K7, 1, 1),
    Row(0xFC07, 0xF000, Cond(BRCS), K7, 1, 1),
    Row(0xFC07, 0xF001, Cond(BREQ), K7, 1, 1),
    Row(0xFC07, 0xF404, Cond(BRGE), K7, 1, 1),
    Row(0xFC07, 0xF405, Cond(BRHC), K7, 1, 1),
    Row(0xFC07, 0xF005, Cond(BRHS), K7, 1, 1),
    Row(0xFC07, 0xF407, Cond(BRID), K7, 1, 1),
    Row(0xFC07, 0xF007, Cond(BRIE), K7, 1, 1),
    Row(0xFC07, 0xF000, Cond(BRLO), K7, 1, 1),
    Row(0xFC07, 0xF004, Cond(BRLT), K7, 1, 1),
    Row(0xFC07, 0xF002, Cond(BRMI), K7, 1, 1),
    Row(0xFC07, 0xF401, Cond(BRNE), K7, 1, 1),
    Row(0xFC07, 0xF402, Cond(BRPL), K7, 1, 1),
    Row(0xFC07, 0xF400, Cond(BRSH), K7, 1, 1),
    Row(0xFC07, 0xF406, Cond(BRTC), K7, 1, 1),
    Row(0xFC07, 0xF006, Cond(BRTS), K7, 1, 1),
    Row(0xFC07, 0xF403, Cond(BRVC), K7, 1, 1),
    Row(0xFC07, 0xF003, Cond(BRVS), K7, 1, 1)
  ]

  const JUMP_ROWS: seq<Row> := [
    Row(0xF000, 0xC000, Control(RJMP), K02, 1, 2),
    Row(0xFE0E, 0x940C, Control(JMP), K22, 2, 3),
    Row(0xFFFF, 0x9409, Control(IJMP), NoOperands, 1, 2),
    Row(0xF000, 0xD000, Control(RCALL), K02Call, 1, 3),
    Row(0xFE0E, 0x940E, Control(CALL), K22Call, 2, 4),
    Row(0xFFFF, 0x9509, Control(ICALL), NoOperands, 1, 3),
    Row(0xFFFF, 0x9508, Control(RET), NoOperands, 1, 4),
    Row(0xFFFF, 0x9518, Control(RETI), NoOperands, 1, 4)
  ]

  const SKIP_ROWS: seq<Row> := [
    Row(0xFF00, 0x9900, Control(SBIC), IoB, 1, 1),
    Row(0xFF00, 0x9B00, Control(SBIS), IoB, 1, 1),
    Row(0xFE08, 0xFC00, Control(SBRC), RrB, 1, 1),
    Row(0xFE08, 0xFE00, Control(SBRS), RrB, 1, 1)
  ]

  const FLAG_ROWS: seq<Row> := [
    Row(0xFFFF, 0x9408, Flags(SEC), NoOperands, 1, 1),
    Row(0xFFFF, 0x9418, Flags(SEZ), NoOperands, 1, 1),
    Row(0xFFFF, 0x9428, Flags(SEN), NoOperands, 1, 1),
    Row(0xFFFF, 0x9438, Flags(SEV), NoOperands, 1, 1),
    Row(0xFFFF, 0x9448, Flags(SES), NoOperands, 1, 1),
    Row(0xFFFF, 0x9458, Flags(SEH), NoOperands, 1, 1),
    Row(0xFFFF, 0x9468, Flags(SET), NoOperands, 1, 1),
    Row(0xFFFF, 0x9478, Flags(SEI), NoOperands, 1, 1),
    Row(0xFFFF, 0x9488, Flags(CLC), NoOperands, 1, 1),
    Row(0xFFFF, 0x9498, Flags(CLZ), NoOperands, 1, 1),
    Row(0xFFFF, 0x94A8, Flags(CLN), NoOperands, 1, 1),
    Row(0xFFFF, 0x94B8, Flags(CLV), NoOperands, 1, 1),
    Row(0xFFFF, 0x94C8, Flags(CLS), NoOperands, 1, 1),
    Row(0xFFFF, 0x94D8, Flags(CLH), NoOperands, 1, 1),
    Row(0xFFFF, 0x94E8, Flags(CLT), NoOperands, 1, 1),
    Row(0xFFFF, 0x94F8, Flags(CLI), NoOperands, 1, 1)
  ]

  const BIT_ROWS: seq<Row> := [
    Row(0xFF8F, 0x9408, Flags(BSET), BitOnly, 1, 1),
    Row(0xFF8F, 0x9488, Flags(BCLR), BitOnly, 1, 1),
    Row(0xFE08, 0xF800, Flags(BLD), RdB, 1, 1),
    Row(0xFE08, 0xFA00, Flags(BST), RdB, 1, 1),
    Row(0xFF00, 0x9800, Mem(CBI), IoB, 1, 2),
    Row(0xFF00, 0x9A00, Mem(SBI), IoB, 1, 2)
  ]

  const CONTROL_ROWS: seq<Row> := [
    Row(0xFFFF, 0x0000, Control(NOP), NoOperands, 1, 1),
    Row(0xFFFF, 0x9588, Control(SLEEP), NoOperands, 1, 1),
    Row(0xFFFF, 0x95A8, Control(WDR), NoOperands, 1, 1),
    Row(0xFFFF, 0x9598, Control(BREAK), NoOperands, 1, 1),
    Row(0xFFFF, 0x95E8, Mem(SPM_E), NoOperands, 1, 1)
  ]

  const HEAD_ROWS: seq<Row> := ARITHMETIC_ROWS + LOGIC_ROWS + SHIFT_ROWS + COMPARE_ROWS + MOVE_ROWS + POP_ROWS
  const MIDDLE_ROWS: seq<Row> := LOAD_ROWS + PUSH_ROWS
  const TAIL_ROWS: seq<Row> := STORE_ROWS + BRANCH_ROWS + JUMP_ROWS + SKIP_ROWS + FLAG_ROWS + BIT_ROWS + CONTROL_ROWS

  const TABLE: seq<Row> := HEAD_ROWS + (MIDDLE_ROWS + TAIL_ROWS)
}
