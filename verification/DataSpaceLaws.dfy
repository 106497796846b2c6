/**
 The data space address by address, with absolute addresses: registers, stack pointer, SREG, Timer0
 with its aliases, the two UART blocks, and SRAM; and the byte stack on top of it.
 */
module DataSpaceLaws {
  import opened Bits
  import opened Alu
  import opened Interrupts
  import opened Machine
  import opened MemoryLaws
  import TimerZero
  import Uart

  function SregNumber(f: Sreg): Byte {
    Flag01(f.c) + 2 * Flag01(f.z) + 4 * Flag01(f.n) + 8 * Flag01(f.v)
    + 16 * Flag01(f.s) + 32 * Flag01(f.h) + 64 * Flag01(f.t) + 128 * Flag01(f.i)
  }

  /** R0 to R31, SPL, SPH and SREG. */
  lemma CoreReads(m: State, addr: Word)
    ensures addr < 32 ==> ReadData(m, addr) == Access(m, m.r[addr])
    ensures addr == 0x5D ==> ReadData(m, addr) == Access(m, m.sp % 256)
    ensures addr == 0x5E ==> ReadData(m, addr) == Access(m, m.sp / 256)
    ensures addr == 0x5F ==> ReadData(m, addr) == Access(m, SregNumber(m.sreg))
  {
  }

  lemma CoreWrites(m: State, addr: Word, v: Byte)
    ensures addr < 32 ==> WriteData(m, addr, v) == m.(r := m.r[addr := v])
    ensures addr == 0x5D ==> WriteData(m, addr, v) == m.(sp := v + 256 * (m.sp / 256))
    ensures addr == 0x5E ==> WriteData(m, addr, v) == m.(sp := m.sp % 256 + 256 * v)
    ensures
      addr == 0x5F ==>
        var f := WriteData(m, addr, v).sreg;
        WriteData(m, addr, v) == m.(sreg := f) && SregNumber(f) == v
  {
    SregWritesBack(v);
  }

  /** Timer0 registers answer to the low byte of an address; the proxies come first. */
  predicate TimerAnswers(addr: Word, low: Byte) {
    addr >= 32 && addr % 256 == low && low in {0x35, 0x44, 0x45, 0x46, 0x47, 0x48, 0x6E}
  }

  lemma LowByte(addr: Word)
    requires addr >= 32
    ensures TimerOffset(addr) == if addr % 256 >= 32 then addr % 256 - 32 else addr % 256 + 224
  {
  }

  lemma TimerReads(m: State, addr: Word, low: Byte)
    requires TimerAnswers(addr, low)
    ensures
      ReadData(m, addr) == Access(m,
        if low == 0x44 then m.timer.tccr0a else if low == 0x45 then m.timer.tccr0b
        else if low == 0x46 then m.timer.tcnt0 else if low == 0x47 then m.timer.ocr0a
        else if low == 0x48 then m.timer.ocr0b else if low == 0x6E then m.timer.timsk0 else m.timer.tifr0)
  {
    LowByte(addr);
  }

  /** Writing the counter empties the prescaler. */
  lemma TimerWrites(m: State, addr: Word, low: Byte, v: Byte)
    requires TimerAnswers(addr, low) && low != 0x35
    ensures
      WriteData(m, addr, v) == m.(timer :=
        if low == 0x44 then m.timer.(tccr0a := v) else if low == 0x45 then m.timer.(tccr0b := v)
        else if low == 0x46 then m.timer.(tcnt0 := v, acc := 0) else if low == 0x47 then m.timer.(ocr0a := v)
        else if low == 0x48 then m.timer.(ocr0b := v) else m.timer.(timsk0 := v))
  {
    LowByte(addr);
  }

  /** A one written to TIFR0 clears its flag. */
  lemma FlagWrites(m: State, addr: Word, v: Byte)
    requires TimerAnswers(addr, 0x35)
    ensures
      var flags := WriteData(m, addr, v).timer.tifr0;
      && WriteData(m, addr, v) == m.(timer := m.timer.(tifr0 := flags))
      && forall j: nat :: Bit(flags, j) == (Bit(m.timer.tifr0, j) && !Bit(v, j))
  {
    LowByte(addr);
    hide Bit, AndNot;
    forall j: nat
      ensures Bit(AndNot(m.timer.tifr0, v), j) == (Bit(m.timer.tifr0, j) && !Bit(v, j))
    {
      BitOfAndNot(m.timer.tifr0, v, j);
    }
  }

  /** Status: transmit complete, register empty, and bit 7 for a received byte. */
  lemma UartStatusReads(m: State, addr: Word)
    ensures
      addr in {0xC0, 0x2B} ==> ReadData(m, addr) == Access(m, if m.uart.hwReady then 224 else 96)
    ensures addr in {0xC1, 0x2A} ==> ReadData(m, addr) == Access(m, m.uart.ucsrb)
    ensures addr in {0xC2, 0x2D} ==> ReadData(m, addr) == Access(m, m.uart.ucsrc)
    ensures addr in {0xC4, 0x29} ==> ReadData(m, addr) == Access(m, m.uart.ubrrl)
    ensures addr in {0xC3, 0xC5} ==> ReadData(m, addr) == Access(m, 0)
  {
  }

  /** Data: the received byte, once; 0 when there is none. */
  lemma UartDataReads(m: State, addr: Word)
    requires addr in {0xC6, 0x2C}
    ensures
      ReadData(m, addr) ==
      if m.uart.hwReady then Access(m.(uart := m.uart.(hwReady := false)), m.uart.hwByte) else Access(m, 0)
  {
  }

  /** A transmitted byte is appended; vector 21 is raised under bit 6 of the control register and 20 under bit 5. */
  lemma UartDataWrites(m: State, addr: Word, v: Byte)
    requires addr in {0xC6, 0x2C}
    ensures
      var after := WriteData(m, addr, v);
      && after == m.(uart := m.uart.(tx := m.uart.tx + [v]), pending := after.pending)
      && forall u: Vector {:trigger Raised(after.pending, u)} ::
           Raised(after.pending, u) ==
           (Raised(m.pending, u) || (u == 21 && Bit(m.uart.ucsrb, 6)) || (u == 20 && Bit(m.uart.ucsrb, 5)))
  {
  }

  /** Writing the control register with bit 5 raises vector 20; the other registers only store. */
  lemma UartControlWrites(m: State, addr: Word, v: Byte)
    ensures
      addr in {0xC1, 0x2A} ==>
        var after := WriteData(m, addr, v);
        && after == m.(uart := m.uart.(ucsrb := v), pending := after.pending)
        && forall u: Vector {:trigger Raised(after.pending, u)} ::
             Raised(after.pending, u) == (Raised(m.pending, u) || (u == 20 && Bit(v, 5)))
    ensures addr in {0xC2, 0x2D} ==> WriteData(m, addr, v) == m.(uart := m.uart.(ucsrc := v))
    ensures addr in {0xC4, 0x29} ==> WriteData(m, addr, v) == m.(uart := m.uart.(ubrrl := v))
    ensures addr in {0xC0, 0xC3, 0xC5, 0x2B} ==> WriteData(m, addr, v) == m
  {
  }

  /** All other addresses are SRAM up to 0x08FF and raise the fault flag above. */
  predicate Unclaimed(addr: Word) {
    && addr >= 32 && !(0x5D <= addr <= 0x5F) && !(0xC0 <= addr <= 0xC6) && !(0x29 <= addr <= 0x2D)
    && addr % 256 !in {0x35, 0x44, 0x45, 0x46, 0x47, 0x48, 0x6E}
  }

  lemma PlainExactly(addr: Word)
    ensures Plain(addr) <==> Unclaimed(addr) && addr <= 0x8FF
  {
  }

  lemma OtherAccesses(m: State, addr: Word, v: Byte)
    requires Unclaimed(addr)
    ensures ReadData(m, addr) == if addr <= 0x8FF then Access(m, m.sram[addr]) else Access(m.(fault := true), 0)
    ensures WriteData(m, addr, v) == if addr <= 0x8FF then m.(sram := m.sram[addr := v]) else m.(fault := true)
  {
    TimerAliasIsExact(m.timer, addr, v);
  }

  // ------------------------------------------------------------------ the stack

  /** A push writes at SP and then moves it down; outside 0x0100 to 0x08FF it only faults. */
  lemma PushesExactly(m: State, v: Byte)
    ensures
      PushByte(m, v) ==
      if m.sp < 0x100 || m.sp > 0x8FF then m.(fault := true)
      else WriteData(m, m.sp, v).(sp := m.sp - 1)
  {
  }

  /** A pop moves SP up and then reads there; from 0x08FF on it only faults. */
  lemma PopsExactly(m: State)
    ensures PopByte(m) == if m.sp >= 0x8FF then Access(m.(fault := true), 0) else ReadData(m.(sp := m.sp + 1), m.sp + 1)
  {
  }

  /** A word is pushed low byte first, and popped high byte first. */
  lemma WordsOnStack(m: State, w: Word)
    ensures PushWord(m, w) == PushByte(PushByte(m, w % 256), w / 256)
    ensures
      var hi := PopByte(m);
      var lo := PopByte(hi.m);
      PopWord(m) == WordAccess(lo.m, lo.value + 256 * hi.value)
  {
  }
}
