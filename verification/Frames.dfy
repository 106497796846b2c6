/** What instructions cannot do behind the back of Timer0 and the interrupt controller. */
module Frames {
  import opened Bits
  import opened Alu
  import opened Decoder
  import opened Interrupts
  import opened Machine
  import TimerZero
  import Uart

  /** The vectors that only Timer0 raises. */
  predicate IsTimerVector(v: Vector) {
    TimerBit(v).Some?
  }

  /**
   From m to m' no timer flag rises, no timer vector is raised or lost, the prescaler is kept or
   reset, the cycle counters are untouched, and the UART streams only move on.
   */
  ghost predicate Quiet(m: State, m': State) {
    && (forall k: nat :: Bit(m'.timer.tifr0, k) ==> Bit(m.timer.tifr0, k))
    && (forall v: Vector :: IsTimerVector(v) ==> Raised(m'.pending, v) == Raised(m.pending, v))
    && (m'.timer.acc == m.timer.acc || m'.timer.acc == 0)
    && m'.cycles == m.cycles && m'.nextPoll == m.nextPoll
    && Uart.Flows(m.uart, m'.uart)
  }

  lemma QuietTransitive(a: State, b: State, c: State)
    requires Quiet(a, b) && Quiet(b, c)
    ensures Quiet(a, c)
  {
    hide Uart.Flows;
    Uart.FlowsTransitive(a.uart, b.uart, c.uart);
  }

  lemma QuietIfUntouched(m: State, m': State)
    requires m'.timer == m.timer && m'.pending == m.pending && m'.cycles == m.cycles && m'.nextPoll == m.nextPoll
    requires m'.uart == m.uart
    ensures Quiet(m, m')
  {
    hide Uart.Flows;
    Uart.SameFlows(m.uart, m.uart);
  }

  lemma UartRaisesNoTimerVector(pending: Mask, raised: seq<Vector>)
    requires forall v :: v in raised ==> v == USART_RX || v == USART_TX || v == USART_UDRE
    ensures forall v: Vector :: IsTimerVector(v) ==> Raised(RaiseAll(pending, raised), v) == Raised(pending, v)
  {
  }

  lemma ReadQuiet(m: State, addr: Word)
    ensures Quiet(m, ReadData(m, addr).m)
    ensures ReadData(m, addr).m.extra == m.extra
  {
    hide Uart.Flows, Uart.ReadRegister;
    if addr >= 0x20 && TimerZero.ReadRegister(m.timer, TimerOffset(addr)).None? && UartOffset(addr).Some? {
      Uart.ReadFlows(m.uart, UartOffset(addr).value);
    }
    Uart.SameFlows(m.uart, m.uart);
  }

  lemma TimerWriteQuiet(t: TimerZero.Timer, io: Byte, v: Byte)
    requires TimerZero.WriteRegister(t, io, v).Some?
    ensures
      var t' := TimerZero.WriteRegister(t, io, v).value;
      && (forall k: nat :: Bit(t'.tifr0, k) ==> Bit(t.tifr0, k))
      && (t'.acc == t.acc || t'.acc == 0)
  {
    forall k: nat
      ensures Bit(AndNot(t.tifr0, v), k) ==> Bit(t.tifr0, k)
    {
      BitOfAndNot(t.tifr0, v, k);
    }
  }

  lemma WriteQuiet(m: State, addr: Word, v: Byte)
    ensures Quiet(m, WriteData(m, addr, v))
    ensures WriteData(m, addr, v).extra == m.extra
  {
    hide TimerZero.WriteRegister, Uart.WriteRegister, Uart.Flows;
    Uart.SameFlows(m.uart, m.uart);
    if addr >= 0x20 && TimerZero.WriteRegister(m.timer, TimerOffset(addr), v).Some? {
      TimerWriteQuiet(m.timer, TimerOffset(addr), v);
    } else if addr >= 0x20 && UartOffset(addr).Some? {
      var a := UartOffset(addr).value;
      Uart.WritesRaiseOnlyTransmit(m.uart, a, v);
      Uart.WriteFlows(m.uart, a, v);
      UartRaisesNoTimerVector(m.pending, Uart.WriteRegister(m.uart, a, v).raised);
    }
  }

  lemma PushByteQuiet(m: State, v: Byte)
    ensures Quiet(m, PushByte(m, v)) && PushByte(m, v).extra == m.extra
  {
    hide WriteData;
    WriteQuiet(m, m.sp, v);
  }

  lemma PopByteQuiet(m: State)
    ensures Quiet(m, PopByte(m).m) && PopByte(m).m.extra == m.extra
  {
    hide ReadData;
    if m.sp < DATA_SPACE_END {
      ReadQuiet(m.(sp := m.sp + 1), m.sp + 1);
    }
  }

  lemma PushWordQuiet(m: State, w: Word)
    ensures Quiet(m, PushWord(m, w)) && PushWord(m, w).extra == m.extra
  {
    hide PushByte, Quiet;
    PushByteQuiet(m, Lo(w));
    PushByteQuiet(PushByte(m, Lo(w)), Hi(w));
    QuietTransitive(m, PushByte(m, Lo(w)), PushWord(m, w));
  }

  lemma PopWordQuiet(m: State)
    ensures Quiet(m, PopWord(m).m) && PopWord(m).m.extra == m.extra
  {
    hide PopByte, Quiet;
    PopByteQuiet(m);
    PopByteQuiet(PopByte(m).m);
    QuietTransitive(m, PopByte(m).m, PopWord(m).m);
  }

  lemma LoadIndirectQuiet(m: State, x: Pointer, d: Reg, mode: nat)
    ensures Quiet(m, LoadIndirect(m, x, d, mode)) && LoadIndirect(m, x, d, mode).extra == m.extra
  {
    hide ReadData, Uart.Flows, TimerBit, Bit, Raised;
    var p: int := PairValue(m, x);
    var p' := Wrap16(p - 1);
    ReadQuiet(m, p);
    ReadQuiet(PutPair(m, x, p'), p');
  }

  lemma StoreIndirectQuiet(m: State, x: Pointer, d: Reg, mode: nat)
    ensures Quiet(m, StoreIndirect(m, x, d, mode)) && StoreIndirect(m, x, d, mode).extra == m.extra
  {
    hide WriteData, Uart.Flows, TimerBit, Bit, Raised;
    var p: int := PairValue(m, x);
    var p' := Wrap16(p - 1);
    var m' := PutPair(m, x, p');
    WriteQuiet(m, p, m.r[d]);
    WriteQuiet(m', p', m'.r[d]);
  }

  lemma IoBitQuiet(m: State, io: Reg, b: BitIndex, on: bool)
    ensures Quiet(m, WriteIoBit(m, io, b, on)) && WriteIoBit(m, io, b, on).extra == m.extra
  {
    hide ReadData, WriteData, Quiet;
    var a := ReadData(m, io + 0x20);
    ReadQuiet(m, io + 0x20);
    WriteQuiet(a.m, io + 0x20, SetBit8(a.value, b, on));
    QuietTransitive(m, a.m, WriteIoBit(m, io, b, on));
  }

  lemma DataQuiet(m: State, ins: DataIns)
    ensures Quiet(m, ExecuteData(m, ins)) && ExecuteData(m, ins).extra == m.extra
  {
    hide ReadData, WriteData, LoadIndirect, StoreIndirect, PushByte, PopByte, WriteIoBit,
         Uart.Flows, TimerBit, Bit, Raised;
    match ins
    case Ld(x, d, mode) => LoadIndirectQuiet(m, x, d, mode);
    case Ldd(x, d, q) => ReadQuiet(m, Wrap16(PairValue(m, x) + q));
    case Lds(d, addr) => ReadQuiet(m, addr);
    case St(x, d, mode) => StoreIndirectQuiet(m, x, d, mode);
    case Std(x, d, q) => WriteQuiet(m, Wrap16(PairValue(m, x) + q), m.r[d]);
    case Sts(d, addr) => WriteQuiet(m, addr, m.r[d]);
    case Lpm(d, postInc) => QuietIfUntouched(m, ExecuteData(m, ins));
    case Spm => QuietIfUntouched(m, ExecuteData(m, ins));
    case In(d, a) => ReadQuiet(m, a + 0x20);
    case Out(d, a) => WriteQuiet(m, a + 0x20, m.r[d]);
    case Pop(d) => PopByteQuiet(m);
    case Push(d) => PushByteQuiet(m, m.r[d]);
    case Cbi(io, b) => IoBitQuiet(m, io, b, false);
    case Sbi(io, b) => IoBitQuiet(m, io, b, true);
  }

  lemma SkipQuiet(m: State, skip: bool)
    ensures Quiet(m, SkipIf(m, skip)) && SkipIf(m, skip).extra in {m.extra, 1}
  {
    hide Lookup;
    QuietIfUntouched(m, SkipIf(m, skip));
  }

  lemma FlowQuiet(m: State, ins: FlowIns)
    ensures Quiet(m, ExecuteFlow(m, ins)) && ExecuteFlow(m, ins).extra in {m.extra, 1}
  {
    hide ReadData, PushWord, PopWord, SkipIf, Uart.Flows, TimerBit, Bit, Raised;
    match ins
    case Rcall(off) => PushWordQuiet(m, m.pc);
    case Call(target) => PushWordQuiet(m, m.pc);
    case Icall => PushWordQuiet(m, m.pc);
    case Ret => PopWordQuiet(m);
    case Reti => PopWordQuiet(m);
    case Cpse(d, r) => SkipQuiet(m, m.r[d] == m.r[r]);
    case Sbic(io, b) => IoSkipQuiet(m, io, b, false);
    case Sbis(io, b) => IoSkipQuiet(m, io, b, true);
    case Sbrc(d, b) => SkipQuiet(m, !Bit(m.r[d], b));
    case Sbrs(d, b) => SkipQuiet(m, Bit(m.r[d], b));
    case _ => QuietIfUntouched(m, ExecuteFlow(m, ins));
  }

  lemma IoSkipQuiet(m: State, io: Reg, b: BitIndex, on: bool)
    ensures
      var a := ReadIoBit(m, io, b);
      var m' := SkipIf(a.m, Bit(a.value, b) == on);
      Quiet(m, m') && m'.extra in {m.extra, 1}
  {
    hide ReadData, SkipIf, Quiet;
    var a := ReadIoBit(m, io, b);
    ReadQuiet(m, io + 0x20);
    SkipQuiet(a.m, Bit(a.value, b) == on);
    QuietTransitive(m, a.m, SkipIf(a.m, Bit(a.value, b) == on));
  }

  /**
   No instruction raises a Timer0 flag or touches a Timer0 vector, whatever it writes to TIFR0,
   TIMSK0 or SREG and through whatever address; an instruction adds at most one extra cycle.
   */
  lemma ExecuteQuiet(m: State, ins: Ins)
    requires m.extra <= 1
    ensures Quiet(m, Execute(m, ins)) && Execute(m, ins).extra <= 1
  {
    hide ExecuteArithmetic, ExecuteLogic, ExecuteData, ExecuteFlow;
    match ins
    case Arithmetic(a) => QuietIfUntouched(m, Execute(m, ins));
    case Logic(l) => QuietIfUntouched(m, Execute(m, ins));
    case Data(t) => DataQuiet(m, t);
    case Flow(f) => FlowQuiet(m, f);
  }
}
