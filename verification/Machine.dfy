/**
 The whole emulated machine as a value, the effect of every instruction on it, and one iteration of
 the execution loop. Class Emulation.Emulator is proved to compute these functions in place.
 */
module Machine {
  import opened Bits
  import opened Alu
  import opened Decoder
  import opened OpcodeTable
  import opened Interrupts
  import TimerZero
  import Uart

  const FLASH_SIZE := 0x8000
  const SRAM_SIZE := 0x900
  const DATA_SPACE_END := 0x8FF
  const STACK_BOTTOM := 0x100
  const SPL_ADDR := 0x5D
  const SPH_ADDR := 0x5E
  const SREG_ADDR := 0x5F
  const POLL_INTERVAL := 1024

  datatype Core = Core(
    r: seq<Byte>, pc: Word, sreg: Sreg, sp: Word, cycles: nat, extra: Byte,
    flash: seq<Byte>, sram: seq<Byte>,
    timer: TimerZero.Timer, uart: Uart.State, pending: Mask,
    fault: bool, nextPoll: nat)

  predicate Shaped(c: Core) {
    |c.r| == 32 && |c.flash| == FLASH_SIZE && |c.sram| == SRAM_SIZE
  }

  type State = c: Core | Shaped(c) witness Blank()

  function Zeros(n: nat): (s: seq<Byte>)
    ensures |s| == n
  {
    seq(n, _ => 0)
  }

  /** Everything cleared, SP at the end of SRAM. */
  function Blank(): Core {
    Core(Zeros(32), 0, ByteSreg(0), DATA_SPACE_END, 0, 0, Zeros(FLASH_SIZE), Zeros(SRAM_SIZE),
         TimerZero.RESET, Uart.State([], false, 0, [], 0, 0, 0), 0, false, 0)
  }

  // ------------------------------------------------------------------ data space

  datatype Access = Access(m: State, value: Byte)

  /** What Timer0 is asked for: the low byte of addr - 0x20, so that its registers alias every 256 bytes. */
  function TimerOffset(addr: Word): Byte {
    (addr - 0x20) % 0x100
  }

  /** Offset of a UART register in either of its two blocks. */
  function UartOffset(addr: Word): Option<Byte> {
    if 0xC0 <= addr <= 0xC6 then Some(addr - 0xC0)
    else if 0x29 <= addr <= 0x2D then Some(addr - 0x20)
    else None
  }

  function ReadData(m: State, addr: Word): Access {
    if addr < 0x20 then Access(m, m.r[addr])
    else if addr == SPL_ADDR then Access(m, Lo(m.sp))
    else if addr == SPH_ADDR then Access(m, Hi(m.sp))
    else if addr == SREG_ADDR then Access(m, SregByte(m.sreg))
    else match TimerZero.ReadRegister(m.timer, TimerOffset(addr))
      case Some(v) => Access(m, v)
      case None =>
        match UartOffset(addr)
        case Some(a) =>
          var read := Uart.ReadRegister(m.uart, a);
          Access(m.(uart := read.uart), read.value)
        case None =>
          if addr > DATA_SPACE_END then Access(m.(fault := true), 0) else Access(m, m.sram[addr])
  }

  function WriteData(m: State, addr: Word, value: Byte): State {
    if addr < 0x20 then m.(r := m.r[addr := value])
    else if addr == SPL_ADDR then m.(sp := Join(value, Hi(m.sp)))
    else if addr == SPH_ADDR then m.(sp := Join(Lo(m.sp), value))
    else if addr == SREG_ADDR then m.(sreg := ByteSreg(value))
    else match TimerZero.WriteRegister(m.timer, TimerOffset(addr), value)
      case Some(t) => m.(timer := t)
      case None =>
        match UartOffset(addr)
        case Some(a) =>
          var written := Uart.WriteRegister(m.uart, a, value);
          m.(uart := written.uart, pending := RaiseAll(m.pending, written.raised))
        case None =>
          if addr > DATA_SPACE_END then m.(fault := true) else m.(sram := m.sram[addr := value])
  }

  function ReadIoBit(m: State, io: Reg, bit: BitIndex): Access {
    ReadData(m, io + 0x20)
  }

  function WriteIoBit(m: State, io: Reg, bit: BitIndex, on: bool): State {
    var a := ReadData(m, io + 0x20);
    WriteData(a.m, io + 0x20, SetBit8(a.value, bit, on))
  }

  // ------------------------------------------------------------------ stack

  function PushByte(m: State, value: Byte): State {
    if m.sp < STACK_BOTTOM || m.sp > DATA_SPACE_END then m.(fault := true)
    else
      var w := WriteData(m, m.sp, value);
      w.(sp := Wrap16(w.sp - 1))
  }

  function PopByte(m: State): Access {
    if m.sp >= DATA_SPACE_END then Access(m.(fault := true), 0)
    else ReadData(m.(sp := m.sp + 1), m.sp + 1)
  }

  /** The low byte goes first, to the higher address. */
  function PushWord(m: State, value: Word): State {
    PushByte(PushByte(m, Lo(value)), Hi(value))
  }

  datatype WordAccess = WordAccess(m: State, value: Word)

  function PopWord(m: State): WordAccess {
    var hi := PopByte(m);
    var lo := PopByte(hi.m);
    WordAccess(lo.m, Join(lo.value, hi.value))
  }

  // ------------------------------------------------------------------ register helpers

  function PairValue(m: State, x: Reg): Word
    requires x < 31
  {
    Join(m.r[x], m.r[x + 1])
  }

  function PutReg(m: State, d: Reg, value: Byte): State {
    m.(r := m.r[d := value])
  }

  function PutPair(m: State, x: Reg, value: Word): State
    requires x < 31
  {
    m.(r := m.r[x := Lo(value)][x + 1 := Hi(value)])
  }

  function PutOut(m: State, d: Reg, o: ByteResult): State {
    m.(r := m.r[d := o.value], sreg := o.sreg)
  }

  function PutWide(m: State, x: Reg, o: WordResult): State
    requires x < 31
  {
    PutPair(m, x, o.value).(sreg := o.sreg)
  }

  function Jump(m: State, offset: int): State {
    m.(pc := Wrap16(m.pc + 2 * offset))
  }

  function Branch(m: State, taken: bool, offset: int): State {
    if taken then Jump(m, offset).(extra := 1) else m
  }

  // ------------------------------------------------------------------ loads and stores

  function Load(m: State, d: Reg, addr: Word): State {
    var a := ReadData(m, addr);
    PutReg(a.m, d, a.value)
  }

  /** Mode 1 increments the pointer afterwards, mode 2 decrements it before. */
  function LoadIndirect(m: State, x: Pointer, d: Reg, mode: nat): State {
    if mode == 1 then
      var p := PairValue(m, x);
      PutPair(Load(m, d, p), x, Wrap16(p + 1))
    else if mode == 2 then
      var p := Wrap16(PairValue(m, x) - 1);
      Load(PutPair(m, x, p), d, p)
    else Load(m, d, PairValue(m, x))
  }

  function StoreIndirect(m: State, x: Pointer, d: Reg, mode: nat): State {
    if mode == 1 then
      var p := PairValue(m, x);
      PutPair(WriteData(m, p, m.r[d]), x, Wrap16(p + 1))
    else if mode == 2 then
      var p := Wrap16(PairValue(m, x) - 1);
      var m' := PutPair(m, x, p);
      WriteData(m', p, m'.r[d])
    else WriteData(m, PairValue(m, x), m.r[d])
  }

  function LoadProgram(m: State, d: Reg, postInc: bool): State {
    var z := PairValue(m, Z);
    if z >= FLASH_SIZE then m.(fault := true)
    else
      var m' := PutReg(m, d, m.flash[z]);
      if postInc then PutPair(m', Z, z + 1) else m'
  }

  function StoreProgram(m: State): State {
    var z := PairValue(m, Z);
    if z + 1 >= FLASH_SIZE then m else m.(flash := m.flash[z := m.r[0]][z + 1 := m.r[1]])
  }

  // ------------------------------------------------------------------ instructions

  function FlashWord(m: State, addr: nat): Word
    requires addr + 1 < FLASH_SIZE
  {
    Join(m.flash[addr], m.flash[addr + 1])
  }

  function SkipNext(m: State): State {
    if m.pc + 1 >= FLASH_SIZE then m.(fault := true)
    else match Lookup(FlashWord(m, m.pc) as Code)
      case None => m.(fault := true)
      case Some(row) => m.(pc := Wrap16(m.pc + row.words * 2))
  }

  function SkipIf(m: State, skip: bool): State {
    if skip then SkipNext(m).(extra := 1) else m
  }

  function Product(m: State, product: int): State {
    PutWide(m, 0, ProductOut(product, m.sreg))
  }

  /** m' differs from m in registers and SREG at most. */
  predicate RegistersOnly(m: State, m': State) {
    m' == m.(r := m'.r, sreg := m'.sreg)
  }

  /** Arithmetic touches registers and SREG only. */
  function ExecuteArithmetic(m: State, ins: ArithmeticIns): (m': State)
    ensures RegistersOnly(m, m')
  {
    match ins
    case Add(d, r) => PutOut(m, d, Alu.Add(m.r[d], m.r[r], m.sreg))
    case Adc(d, r) => PutOut(m, d, Alu.Adc(m.r[d], m.r[r], m.sreg))
    case Sub(d, r) => PutOut(m, d, Alu.Sub(m.r[d], m.r[r], m.sreg))
    case Sbc(d, r) => PutOut(m, d, Alu.Sbc(m.r[d], m.r[r], m.sreg))
    case Subi(d, k) => PutOut(m, d, Alu.Sub(m.r[d], k, m.sreg))
    case Sbci(d, k) => PutOut(m, d, Alu.Sbc(m.r[d], k, m.sreg))
    case Adiw(p, q) => PutWide(m, p, Alu.Adiw(PairValue(m, p), q, m.sreg))
    case Sbiw(p, q) => PutWide(m, p, Alu.Sbiw(PairValue(m, p), q, m.sreg))
    case Neg(d) => PutOut(m, d, Alu.Neg(m.r[d], m.sreg))
    case Inc(d) => PutOut(m, d, Alu.Inc(m.r[d], m.sreg))
    case Dec(d) => PutOut(m, d, Alu.Dec(m.r[d], m.sreg))
    case Mul(d, r) => Product(m, Times(m.r[d], m.r[r]))
    case Muls(nd, nr) => Product(m, Times(Signed8(m.r[nd + 16]), Signed8(m.r[nr + 16])))
    case Mulsu(d, r) => Product(m, Times(Signed8(m.r[d]), m.r[r]))
    case Fmul(d, r) => Product(m, 2 * Times(m.r[d], m.r[r]))
    case Fmuls(d, r) => Product(m, 2 * Times(Signed8(m.r[d]), Signed8(m.r[r])))
    case Fmulsu(d, r) => Product(m, 2 * Times(Signed8(m.r[d]), m.r[r]))
    case Cp(d, r) => m.(sreg := Alu.Sub(m.r[d], m.r[r], m.sreg).sreg)
    case Cpc(d, r) => m.(sreg := Alu.Sbc(m.r[d], m.r[r], m.sreg).sreg)
    case Cpi(d, k) => m.(sreg := Alu.Sub(m.r[d], k, m.sreg).sreg)
  }

  /** Logic, shifts, moves and flag bits touch registers and SREG only. */
  function ExecuteLogic(m: State, ins: LogicIns): (m': State)
    ensures RegistersOnly(m, m')
  {
    match ins
    case And(d, r) => PutOut(m, d, LogicOut(And8(m.r[d], m.r[r]), m.sreg))
    case Andi(d, k) => PutOut(m, d, LogicOut(And8(m.r[d], k), m.sreg))
    case Or(d, r) => PutOut(m, d, LogicOut(Or8(m.r[d], m.r[r]), m.sreg))
    case Ori(d, k) => PutOut(m, d, LogicOut(Or8(m.r[d], k), m.sreg))
    case Eor(d, r) => PutOut(m, d, LogicOut(Xor8(m.r[d], m.r[r]), m.sreg))
    case Com(d) => PutOut(m, d, Alu.Com(m.r[d], m.sreg))
    case Ser(d) => PutReg(m, d, 0xFF)
    case Swap(d) => PutReg(m, d, Swapped(m.r[d]))
    case Lsr(d) => PutOut(m, d, Alu.Lsr(m.r[d], m.sreg))
    case Ror(d) => PutOut(m, d, Alu.Ror(m.r[d], m.sreg))
    case Asr(d) => PutOut(m, d, Alu.Asr(m.r[d], m.sreg))
    case Mov(d, r) => PutReg(m, d, m.r[r])
    case Movw(nd, nr) => PutPair(m, 2 * nd, PairValue(m, 2 * nr))
    case Ldi(d, k) => PutReg(m, d, k)
    case Bset(s) => m.(sreg := PutFlag(m.sreg, s, true))
    case Bclr(s) => m.(sreg := PutFlag(m.sreg, s, false))
    case Bld(d, b) => PutReg(m, d, SetBit8(m.r[d], b, m.sreg.t))
    case Bst(d, b) => m.(sreg := m.sreg.(t := Bit(m.r[d], b)))
  }

  /** Loads, stores, stack and I/O transfers leave pc alone. */
  function ExecuteData(m: State, ins: DataIns): State {
    match ins
    case Ld(x, d, mode) => LoadIndirect(m, x, d, mode)
    case Ldd(x, d, q) => Load(m, d, Wrap16(PairValue(m, x) + q))
    case Lds(d, addr) => Load(m, d, addr)
    case St(x, d, mode) => StoreIndirect(m, x, d, mode)
    case Std(x, d, q) => WriteData(m, Wrap16(PairValue(m, x) + q), m.r[d])
    case Sts(d, addr) => WriteData(m, addr, m.r[d])
    case Lpm(d, postInc) => LoadProgram(m, d, postInc)
    case Spm => StoreProgram(m)
    case In(d, a) => Load(m, d, a + 0x20)
    case Out(d, a) => WriteData(m, a + 0x20, m.r[d])
    case Pop(d) =>
      var a := PopByte(m);
      PutReg(a.m, d, a.value)
    case Push(d) => PushByte(m, m.r[d])
    case Cbi(io, b) => WriteIoBit(m, io, b, false)
    case Sbi(io, b) => WriteIoBit(m, io, b, true)
  }

  /** Branches, jumps, calls, returns and skips; pc already points past the instruction. */
  function ExecuteFlow(m: State, ins: FlowIns): State {
    match ins
    case Cpse(d, r) => SkipIf(m, m.r[d] == m.r[r])
    case Brbc(off, s) => Branch(m, !GetFlag(m.sreg, s), off)
    case Brbs(off, s) => Branch(m, GetFlag(m.sreg, s), off)
    case Rjmp(off) => Jump(m, off)
    case Jmp(target) => m.(pc := Wrap16(2 * target))
    case Ijmp => m.(pc := Wrap16(2 * PairValue(m, Z)))
    case Rcall(off) => Jump(PushWord(m, m.pc), off)
    case Call(target) => PushWord(m, m.pc).(pc := Wrap16(2 * target))
    case Icall =>
      var m' := PushWord(m, m.pc);
      m'.(pc := Wrap16(2 * PairValue(m', Z)))
    case Ret =>
      var a := PopWord(m);
      a.m.(pc := a.value)
    case Reti =>
      var a := PopWord(m);
      a.m.(pc := a.value, sreg := a.m.sreg.(i := true))
    case Sbic(io, b) =>
      var a := ReadIoBit(m, io, b);
      SkipIf(a.m, !Bit(a.value, b))
    case Sbis(io, b) =>
      var a := ReadIoBit(m, io, b);
      SkipIf(a.m, Bit(a.value, b))
    case Sbrc(d, b) => SkipIf(m, !Bit(m.r[d], b))
    case Sbrs(d, b) => SkipIf(m, Bit(m.r[d], b))
    case Nop => m
  }

  function Execute(m: State, ins: Ins): State {
    match ins
    case Arithmetic(a) => ExecuteArithmetic(m, a)
    case Logic(l) => ExecuteLogic(m, l)
    case Data(t) => ExecuteData(m, t)
    case Flow(f) => ExecuteFlow(m, f)
  }

  // ------------------------------------------------------------------ one iteration of the main loop

  function Poll(m: State): State {
    if m.cycles < m.nextPoll then m
    else
      var e := Uart.Poll(m.uart);
      m.(uart := e.uart, pending := RaiseAll(m.pending, e.raised), nextPoll := m.cycles + POLL_INTERVAL)
  }

  function TimerRequests(t: TimerZero.Timer): seq<Vector> {
    (if TimerZero.Pending(t, TimerZero.TOV0) then [TIMER0_OVF] else [])
    + (if TimerZero.Pending(t, TimerZero.OCF0A) then [TIMER0_COMPA] else [])
    + (if TimerZero.Pending(t, TimerZero.OCF0B) then [TIMER0_COMPB] else [])
  }

  function RaiseTimers(m: State): State {
    m.(pending := RaiseAll(m.pending, TimerRequests(m.timer)))
  }

  function VectorAddr(v: Vector): Word {
    (v - 1) * 4
  }

  /** An erased vector (0xFFFF) is not configured. */
  predicate Programmed(m: State, v: Vector) {
    FlashWord(m, VectorAddr(v)) != 0xFFFF
  }

  function Enter(m: State, v: Vector): State {
    var pushed := PushWord(m.(pending := Clear(m.pending, v)), m.pc);
    pushed.(sreg := pushed.sreg.(i := false), pc := VectorAddr(v))
  }

  /** The vector that would be handled now, if interrupts are enabled and one is pending. */
  function Selected(m: State): Option<Vector> {
    if !m.sreg.i then None
    else
      HighestIsMinimum(m.pending);
      if HighestPending(m.pending) == 0 then None else Some(HighestPending(m.pending))
  }

  datatype Serviced = Serviced(m: State, vector: Option<Vector>)

  function Service(m: State): Serviced {
    match Selected(m)
    case None => Serviced(m, None)
    case Some(v) =>
      if Programmed(m, v) then Serviced(Enter(m, v), Some(v))
      else Serviced(m.(pending := Clear(m.pending, v)), None)
  }

  /** The TIFR0 bit behind a Timer0 vector. */
  function TimerBit(v: Vector): Option<nat> {
    if v == TIMER0_OVF then Some(TimerZero.TOV0)
    else if v == TIMER0_COMPA then Some(TimerZero.OCF0A)
    else if v == TIMER0_COMPB then Some(TimerZero.OCF0B)
    else None
  }

  function Acknowledge(m: State, v: Vector): State {
    match TimerBit(v)
    case Some(bit) => m.(timer := TimerZero.Ack(m.timer, bit))
    case None => m
  }

  datatype Outcome = Running(m: State) | Halted(m: State)

  /** An instruction ready to execute, with pc past it. */
  datatype Fetched = Fetched(m: State, ins: Ins, cycles: Cycles)

  function Fetch(m: State): Option<Fetched> {
    if m.pc + 1 >= FLASH_SIZE then None
    else
      var w := FlashWord(m, m.pc) as Code;
      match Lookup(w)
      case None => None
      case Some(row) =>
        if row.words != 2 then Some(Fetched(m.(pc := m.pc + 2), Operands(row.op, row.fmt, w, 0), row.cycles))
        else if m.pc + 3 >= FLASH_SIZE then None
        else Some(Fetched(m.(pc := m.pc + 4), Operands(row.op, row.fmt, w, FlashWord(m, m.pc + 2)), row.cycles))
  }

  /** pc after a failed fetch: past the first word when the second one is missing or the word is unknown. */
  function FailedFetch(m: State): State {
    if m.pc + 1 >= FLASH_SIZE then m else m.(pc := m.pc + 2)
  }

  function Advance(m: State, cycles: Cycles): State {
    m.(cycles := m.cycles + cycles + m.extra, timer := TimerZero.Ticked(m.timer, cycles + m.extra))
  }

  function Instruction(m: State): Outcome {
    match Fetch(m)
    case None => Halted(FailedFetch(m))
    case Some(f) =>
      var m' := Execute(f.m.(fault := false, extra := 0), f.ins);
      if m'.fault then Halted(m') else Running(Advance(m', f.cycles))
  }

  function Step(m: State): Outcome {
    var s := Service(RaiseTimers(Poll(m)));
    match s.vector
    case Some(v) => Running(Acknowledge(s.m, v))
    case None => Instruction(s.m)
  }

  // ------------------------------------------------------------------ runs

  /** Terminal input arriving from the other thread. */
  function InjectAll(m: State, bytes: seq<Byte>): State
    decreases |bytes|
  {
    if bytes == [] then m else InjectAll(m.(uart := Uart.Inject(m.uart, bytes[0])), bytes[1..])
  }

  /** What the execution loop resets before its first iteration: Timer0 and the interrupt controller. */
  function Reset(m: State): State {
    m.(timer := TimerZero.RESET, pending := 0, nextPoll := 0)
  }

  /** One iteration per element of `inputs`, the bytes injected before it; then the stop flag is seen. */
  function Run(m: State, inputs: seq<seq<Byte>>): Outcome
    decreases |inputs|
  {
    if inputs == [] then Running(m)
    else
      match Step(InjectAll(m, inputs[0]))
      case Running(m') => Run(m', inputs[1..])
      case Halted(m') => Halted(m')
  }
}
