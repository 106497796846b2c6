/**
 Decoding: the precomputed 65536-entry cache, the operand extractors and the selection of an
 operation with its operands.
 */
module Decoder {
  import opened Bits
  import opened OpcodeTable

  predicate Matches(row: Row, w: Code) {
    w & row.mask == row.code
  }

  /** The first row of an ordered, overlapping table that matches. */
  function FirstMatch(rows: seq<Row>, w: Code): (r: Option<Row>)
    ensures r.None? ==> forall row :: row in rows ==> !Matches(row, w)
    ensures r.Some? ==> r.value in rows && Matches(r.value, w)
  {
    if rows == [] then None
    else if Matches(rows[0], w) then Some(rows[0])
    else FirstMatch(rows[1..], w)
  }

  function Lookup(w: Code): Option<Row> {
    FirstMatch(TABLE, w)
  }

  /** FirstMatch is the row with the least matching index. */
  lemma {:induction false} FirstMatchIsLeast(rows: seq<Row>, w: Code, i: nat)
    requires i < |rows| && Matches(rows[i], w)
    requires forall j :: 0 <= j < i ==> !Matches(rows[j], w)
    ensures FirstMatch(rows, w) == Some(rows[i])
  {
    if i > 0 {
      assert !Matches(rows[0], w);
      FirstMatchIsLeast(rows[1..], w, i - 1);
    }
  }

  lemma NoMatchMeansNone(rows: seq<Row>, w: Code)
    requires forall j :: 0 <= j < |rows| ==> !Matches(rows[j], w)
    ensures FirstMatch(rows, w) == None
  {
  }

  /** The decode cache built by scanning the table for every word. */
  class OpcodeCache {
    const rows: seq<Row>
    const entries: array<Option<Row>>

    ghost predicate Valid()
      reads this, entries
    {
      && entries.Length == 0x1_0000
      && forall i: nat :: i < 0x1_0000 ==> entries[i] == FirstMatch(rows, i as Code)
    }

    constructor (rows: seq<Row>)
      ensures Valid() && this.rows == rows && fresh(entries)
    {
      this.rows := rows;
      entries := new Option<Row>[0x1_0000](_ => None);
      new;
      hide Matches, FirstMatch;
      var instruction: nat := 0;
      while instruction < entries.Length
        invariant instruction <= entries.Length == 0x1_0000
        invariant this.rows == rows
        invariant forall i: nat :: i < instruction ==> entries[i] == FirstMatch(rows, i as Code)
        invariant forall i: nat :: instruction <= i < 0x1_0000 ==> entries[i] == None
      {
        var k := 0;
        while k < |rows|
          invariant 0 <= k <= |rows|
          invariant forall j :: 0 <= j < k ==> !Matches(rows[j], instruction as Code)
          invariant forall i: nat :: i < instruction ==> entries[i] == FirstMatch(rows, i as Code)
          invariant forall i: nat :: instruction <= i < 0x1_0000 ==> entries[i] == None
        {
          if Matches(rows[k], instruction as Code) {
            entries[instruction] := Some(rows[k]);
            FirstMatchIsLeast(rows, instruction as Code, k);
            break;
          }
          k := k + 1;
        }
        if k == |rows| {
          NoMatchMeansNone(rows, instruction as Code);
        }
        instruction := instruction + 1;
      }
    }

    method Decode(w: Code) returns (r: Option<Row>)
      requires Valid()
      ensures r == FirstMatch(rows, w)
    {
      r := entries[w as int];
    }
  }

  // ------------------------------------------------------------------ operand extractors

  type Reg = x: int | 0 <= x < 32
  type HighReg = x: int | 16 <= x < 32 witness 16
  type Pair = x: int | x in {24, 26, 28, 30} witness 24
  type BitIndex = x: int | 0 <= x < 8
  type Nibble = x: int | 0 <= x < 16
  type Imm6 = x: int | 0 <= x < 64

  function RegD(w: Code): Reg { ((w >> 4) & 0x1F) as int }
  function RegR(w: Code): Reg { (((w >> 5) & 0x10) | (w & 0x0F)) as int }
  function HighD(w: Code): HighReg { ((w >> 4) & 0x0F) as int + 16 }
  function Imm8(w: Code): Byte { (((w >> 4) & 0xF0) | (w & 0x0F)) as int }
  function MulD(w: Code): HighReg { ((w >> 4) & 0x07) as int + 16 }
  function MulR(w: Code): HighReg { (w & 0x07) as int + 16 }
  function PairD(w: Code): Pair { 24 + 2 * ((w >> 4) & 0x03) as int }
  function K6(w: Code): Imm6 { (((w >> 2) & 0x30) | (w & 0x0F)) as int }
  function NibbleD(w: Code): Nibble { ((w >> 4) & 0x0F) as int }
  function NibbleR(w: Code): Nibble { (w & 0x0F) as int }
  function BitMid(w: Code): BitIndex { ((w >> 4) & 0x07) as int }
  function BitLow(w: Code): BitIndex { (w & 0x07) as int }
  function Io5(w: Code): Reg { ((w >> 3) & 0x1F) as int }
  function Io6(w: Code): Imm6 { (((w >> 5) & 0x30) | (w & 0x0F)) as int }
  function Mode(w: Code): nat { (w & 0x03) as int }
  function Disp6(w: Code): Imm6 { (((w >> 8) & 0x20) | ((w >> 7) & 0x18) | (w & 0x07)) as int }

  /** Sign-extended 7-bit word offset. */
  function Offset7(w: Code): (k: int)
    ensures -64 <= k < 64
  {
    var raw := (w >> 3) & 0x7F;
    if raw & 0x40 != 0 then raw as int - 0x80 else raw as int
  }

  /** Sign-extended 12-bit word offset. */
  function Offset12(w: Code): (k: int)
    ensures -0x800 <= k < 0x800
  {
    var raw := w & 0x0FFF;
    if raw & 0x0800 != 0 then raw as int - 0x1000 else raw as int
  }

  function Target22(w: Code, second: Word): nat {
    ((w >> 4) & 0x3F) as int * 0x1_0000 + second
  }

  // ------------------------------------------------------------------ operations with their operands

  /** Pointer registers X, Y and Z by their low register. */
  type Pointer = x: int | x in {26, 28, 30} witness 26

  const X: Pointer := 26
  const Y: Pointer := 28
  const Z: Pointer := 30

  /** Arithmetic on registers. */
  datatype ArithmeticIns =
    | Add(d: Reg, r: Reg) | Adc(d: Reg, r: Reg) | Sub(d: Reg, r: Reg) | Sbc(d: Reg, r: Reg)
    | Subi(d: Reg, k: Byte) | Sbci(d: Reg, k: Byte) | Adiw(p: Pair, q: Imm6) | Sbiw(p: Pair, q: Imm6)
    | Neg(d: Reg) | Inc(d: Reg) | Dec(d: Reg) | Cp(d: Reg, r: Reg) | Cpc(d: Reg, r: Reg) | Cpi(d: Reg, k: Byte)
    | Mul(d: Reg, r: Reg) | Muls(nd: Nibble, nr: Nibble) | Mulsu(d: Reg, r: Reg)
    | Fmul(d: Reg, r: Reg) | Fmuls(d: Reg, r: Reg) | Fmulsu(d: Reg, r: Reg)

  /** Logic, shifts, moves and flag bits. */
  datatype LogicIns =
    | And(d: Reg, r: Reg) | Andi(d: Reg, k: Byte) | Or(d: Reg, r: Reg) | Ori(d: Reg, k: Byte) | Eor(d: Reg, r: Reg)
    | Com(d: Reg) | Ser(d: Reg) | Swap(d: Reg) | Lsr(d: Reg) | Ror(d: Reg) | Asr(d: Reg)
    | Mov(d: Reg, r: Reg) | Movw(nd: Nibble, nr: Nibble) | Ldi(d: Reg, k: Byte)
    | Bset(s: BitIndex) | Bclr(s: BitIndex) | Bld(d: Reg, b: BitIndex) | Bst(d: Reg, b: BitIndex)

  /** Transfers between registers and memory. */
  datatype DataIns =
    | Ld(x: Pointer, d: Reg, mode: nat) | Ldd(x: Pointer, d: Reg, q: Imm6) | Lds(d: Reg, addr: Word)
    | St(x: Pointer, d: Reg, mode: nat) | Std(x: Pointer, d: Reg, q: Imm6) | Sts(d: Reg, addr: Word)
    | Lpm(d: Reg, postInc: bool) | Spm | In(d: Reg, a: Imm6) | Out(d: Reg, a: Imm6)
    | Pop(d: Reg) | Push(d: Reg) | Cbi(io: Reg, b: BitIndex) | Sbi(io: Reg, b: BitIndex)

  /** Instructions that move pc. */
  datatype FlowIns =
    | Brbc(off: int, s: BitIndex) | Brbs(off: int, s: BitIndex) | Rjmp(off: int) | Jmp(target: nat) | Ijmp
    | Rcall(off: int) | Call(target: nat) | Icall | Ret | Reti | Nop
    | Cpse(d: Reg, r: Reg) | Sbic(io: Reg, b: BitIndex) | Sbis(io: Reg, b: BitIndex)
    | Sbrc(d: Reg, b: BitIndex) | Sbrs(d: Reg, b: BitIndex)

  datatype Ins = Arithmetic(a: ArithmeticIns) | Logic(l: LogicIns) | Data(t: DataIns) | Flow(f: FlowIns)

  /** Mnemonics that share a branch of the dispatch in executeInstruction. */
  function Handler(op: Op): Op {
    match op
    case Arith(a) => Arith(if a.LSL? then ADD else if a.ROL? then ADC else a)
    case Bitwise(b) =>
      Bitwise(if b.CBR? then ANDI else if b.CLR? then EOR else if b.SBR? then ORI else if b.TST? then AND else b)
    case Mem(m) => op
    case Cond(c) => Cond(if BranchesOnSet(c) then BRBS else BRBC)
    case Control(k) => Control(if k.SLEEP? || k.WDR? || k.BREAK? then NOP else k)
    case Flags(f) => Flags(if f.BLD? || f.BST? then f else if SetsFlag(f) then BSET else BCLR)
  }

  predicate BranchesOnSet(c: CondOp) {
    c.BRBS? || c.BRCS? || c.BREQ? || c.BRHS? || c.BRIE? || c.BRLO? || c.BRLT? || c.BRMI? || c.BRTS? || c.BRVS?
  }

  predicate SetsFlag(f: FlagsOp) {
    f.BSET? || f.SEC? || f.SEZ? || f.SEN? || f.SEV? || f.SES? || f.SEH? || f.SET? || f.SEI?
  }

  /** The dispatch of executeInstruction. */
  function Operands(op: Op, fmt: Fmt, w: Code, second: Word): Ins {
    match Handler(op)
    case Arith(a) => ArithOperands(a, w)
    case Bitwise(b) => BitwiseOperands(b, w)
    case Mem(m) => MemOperands(m, fmt, w, second)
    case Cond(c) => if c.BRBS? then Flow(Brbs(Offset7(w), BitLow(w))) else Flow(Brbc(Offset7(w), BitLow(w)))
    case Control(k) => ControlOperands(k, w, second)
    case Flags(f) => FlagsOperands(f, w)
  }

  function ArithOperands(a: ArithOp, w: Code): Ins {
    match a
    case ADC => Arithmetic(Adc(RegD(w), RegR(w)))
    case ADD => Arithmetic(Add(RegD(w), RegR(w)))
    case ADIW => Arithmetic(Adiw(PairD(w), K6(w)))
    case DEC => Arithmetic(Dec(RegD(w)))
    case INC => Arithmetic(Inc(RegD(w)))
    case MUL => Arithmetic(Mul(RegD(w), RegR(w)))
    case MULS => Arithmetic(Muls(NibbleD(w), NibbleR(w)))
    case MULSU => Arithmetic(Mulsu(MulD(w), MulR(w)))
    case FMUL => Arithmetic(Fmul(MulD(w), MulR(w)))
    case FMULS => Arithmetic(Fmuls(MulD(w), MulR(w)))
    case FMULSU => Arithmetic(Fmulsu(MulD(w), MulR(w)))
    case NEG => Arithmetic(Neg(RegD(w)))
    case SBIW => Arithmetic(Sbiw(PairD(w), K6(w)))
    case SBC => Arithmetic(Sbc(RegD(w), RegR(w)))
    case SBCI => Arithmetic(Sbci(HighD(w), Imm8(w)))
    case SUB => Arithmetic(Sub(RegD(w), RegR(w)))
    case SUBI => Arithmetic(Subi(HighD(w), Imm8(w)))
    case CP => Arithmetic(Cp(RegD(w), RegR(w)))
    case CPC => Arithmetic(Cpc(RegD(w), RegR(w)))
    case _ => Arithmetic(Cpi(HighD(w), Imm8(w)))
  }

  function BitwiseOperands(b: BitwiseOp, w: Code): Ins {
    match b
    case AND => Logic(And(RegD(w), RegR(w)))
    case ANDI => Logic(Andi(HighD(w), Imm8(w)))
    case COM => Logic(Com(RegD(w)))
    case EOR => Logic(Eor(RegD(w), RegR(w)))
    case OR => Logic(Or(RegD(w), RegR(w)))
    case ORI => Logic(Ori(HighD(w), Imm8(w)))
    case SER => Logic(Ser(HighD(w)))
    case SWAP => Logic(Swap(RegD(w)))
    case ASR => Logic(Asr(RegD(w)))
    case LSR => Logic(Lsr(RegD(w)))
    case ROR => Logic(Ror(RegD(w)))
    case MOV => Logic(Mov(RegD(w), RegR(w)))
    case MOVW => Logic(Movw(NibbleD(w), NibbleR(w)))
    case _ => Logic(Ldi(HighD(w), Imm8(w)))
  }

  function MemOperands(m: MemOp, fmt: Fmt, w: Code, second: Word): Ins {
    match m
    case LD_X => Data(Ld(X, RegD(w), Mode(w)))
    case LD_Y => if fmt.LddFamily? then Data(Ldd(Y, RegD(w), Disp6(w))) else Data(Ld(Y, RegD(w), Mode(w)))
    case LD_Z => if fmt.LddFamily? then Data(Ldd(Z, RegD(w), Disp6(w))) else Data(Ld(Z, RegD(w), Mode(w)))
    case LDS => Data(Lds(RegD(w), second))
    case LPM => if fmt.NoOperands? then Data(Lpm(0, false)) else Data(Lpm(RegD(w), w & 1 == 1))
    case IN => Data(In(RegD(w), Io6(w)))
    case OUT => Data(Out(RegD(w), Io6(w)))
    case POP => Data(Pop(RegD(w)))
    case PUSH => Data(Push(RegD(w)))
    case ST_X => Data(St(X, RegD(w), Mode(w)))
    case ST_Y => if fmt.LddFamily? then Data(Std(Y, RegD(w), Disp6(w))) else Data(St(Y, RegD(w), Mode(w)))
    case ST_Z => if fmt.LddFamily? then Data(Std(Z, RegD(w), Disp6(w))) else Data(St(Z, RegD(w), Mode(w)))
    case STS => Data(Sts(RegD(w), second))
    case SPM_E => Data(Spm)
    case CBI => Data(Cbi(Io5(w), BitLow(w)))
    case _ => Data(Sbi(Io5(w), BitLow(w)))
  }

  function ControlOperands(k: ControlOp, w: Code, second: Word): Ins {
    match k
    case RJMP => Flow(Rjmp(Offset12(w)))
    case JMP => Flow(Jmp(Target22(w, second)))
    case IJMP => Flow(Ijmp)
    case RCALL => Flow(Rcall(Offset12(w)))
    case CALL => Flow(Call(Target22(w, second)))
    case ICALL => Flow(Icall)
    case RET => Flow(Ret)
    case RETI => Flow(Reti)
    case CPSE => Flow(Cpse(RegD(w), RegR(w)))
    case SBIC => Flow(Sbic(Io5(w), BitLow(w)))
    case SBIS => Flow(Sbis(Io5(w), BitLow(w)))
    case SBRC => Flow(Sbrc(RegD(w), BitLow(w)))
    case SBRS => Flow(Sbrs(RegD(w), BitLow(w)))
    case _ => Flow(Nop)
  }

  function FlagsOperands(f: FlagsOp, w: Code): Ins {
    match f
    case BSET => Logic(Bset(BitMid(w)))
    case BLD => Logic(Bld(RegD(w), BitLow(w)))
    case BST => Logic(Bst(RegD(w), BitLow(w)))
    case _ => Logic(Bclr(BitMid(w)))
  }
}
