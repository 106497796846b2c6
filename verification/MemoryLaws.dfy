/**
 The data space as one memory: on registers and plain addresses a read returns the last value
 written there and nothing else changes, whatever the sequence of writes.
 */
module MemoryLaws {
  import opened Bits
  import opened Alu
  import opened Machine
  import TimerZero

  /** Timer0 answers at 0x35, 0x44-0x48 and 0x6E and at every address 256, 512, ... above those. */
  predicate TimerAlias(addr: Word) {
    addr >= 0x20 && addr % 0x100 in {0x35, 0x44, 0x45, 0x46, 0x47, 0x48, 0x6E}
  }

  /** Data addresses backed by the SRAM array: no proxy, no peripheral, no Timer0 alias. */
  predicate Plain(addr: Word) {
    && 0x20 <= addr <= DATA_SPACE_END
    && addr !in {SPL_ADDR, SPH_ADDR, SREG_ADDR}
    && !TimerAlias(addr)
    && UartOffset(addr).None?
  }

  predicate Remembers(addr: Word) {
    addr < 0x20 || Plain(addr)
  }

  lemma TimerAliasIsExact(t: TimerZero.Timer, addr: Word, v: Byte)
    requires addr >= 0x20
    ensures TimerAlias(addr) <==> TimerZero.ReadRegister(t, TimerOffset(addr)).Some?
    ensures TimerAlias(addr) <==> TimerZero.WriteRegister(t, TimerOffset(addr), v).Some?
  {
    var low := addr % 0x100;
    assert TimerOffset(addr) == (if low >= 0x20 then low - 0x20 else low + 0xE0);
  }

  lemma PlainIsSram(m: State, addr: Word, v: Byte)
    requires Plain(addr)
    ensures ReadData(m, addr) == Access(m, m.sram[addr])
    ensures WriteData(m, addr, v) == m.(sram := m.sram[addr := v])
  {
    TimerAliasIsExact(m.timer, addr, v);
  }

  /**
   A data write reaches the SRAM array exactly when its address is plain; every other write goes to a
   register, a proxy or a peripheral, or faults, and leaves SRAM as it was.
   */
  lemma StoredExactlyWhenPlain(m: State, addr: Word, v: Byte)
    ensures Plain(addr) ==> WriteData(m, addr, v).sram == m.sram[addr := v]
    ensures !Plain(addr) ==> WriteData(m, addr, v).sram == m.sram
    ensures addr < SRAM_SIZE && m.sram[addr] != v ==> (WriteData(m, addr, v).sram != m.sram <==> Plain(addr))
  {
    if addr >= 0x20 {
      TimerAliasIsExact(m.timer, addr, v);
    }
    assert Plain(addr) ==> m.sram[addr := v][addr] == v;
  }

  /** SRAM address 0x0144 is TCCR0A: a write there never reaches SRAM. */
  lemma AliasedWriteHitsTimer(m: State, v: Byte)
    ensures !Plain(0x144) && WriteData(m, 0x144, v) == m.(timer := m.timer.(tccr0a := v))
    ensures ReadData(m, 0x144).value == m.timer.tccr0a
  {
  }

  /** An access raises the fault flag exactly above the data space, Timer0 aliases excepted. */
  lemma FaultExactlyOutside(m: State, addr: Word, v: Byte)
    requires !m.fault
    ensures WriteData(m, addr, v).fault <==> addr > DATA_SPACE_END && !TimerAlias(addr)
    ensures ReadData(m, addr).m.fault <==> addr > DATA_SPACE_END && !TimerAlias(addr)
  {
    if addr >= 0x20 {
      TimerAliasIsExact(m.timer, addr, v);
    }
  }

  datatype Write = Write(addr: Word, value: Byte)

  function WriteAll(m: State, ws: seq<Write>): State
    decreases |ws|
  {
    if ws == [] then m else WriteAll(WriteData(m, ws[0].addr, ws[0].value), ws[1..])
  }

  /** The value of the last write to addr, or `before`. */
  function LastWritten(ws: seq<Write>, addr: Word, before: Byte): Byte
    decreases |ws|
  {
    if ws == [] then before
    else LastWritten(ws[1..], addr, if ws[0].addr == addr then ws[0].value else before)
  }

  lemma WriteThenRead(m: State, w: Write, addr: Word)
    requires Remembers(w.addr) && Remembers(addr)
    ensures ReadData(m, addr).m == m
    ensures ReadData(WriteData(m, w.addr, w.value), addr).value
            == if w.addr == addr then w.value else ReadData(m, addr).value
  {
    if Plain(addr) {
      PlainIsSram(m, addr, 0);
      PlainIsSram(WriteData(m, w.addr, w.value), addr, 0);
    }
    if Plain(w.addr) {
      PlainIsSram(m, w.addr, w.value);
    }
  }

  /** Over any sequence of writes, a read returns the last value written to its address. */
  lemma {:induction false} OneMemory(m: State, ws: seq<Write>, addr: Word)
    requires Remembers(addr) && forall w :: w in ws ==> Remembers(w.addr)
    ensures ReadData(WriteAll(m, ws), addr).value == LastWritten(ws, addr, ReadData(m, addr).value)
    decreases |ws|
  {
    hide ReadData, WriteData;
    if ws != [] {
      WriteThenRead(m, ws[0], addr);
      OneMemory(WriteData(m, ws[0].addr, ws[0].value), ws[1..], addr);
    }
  }

  /** SPL and SPH written in either order make the 16-bit stack pointer, and read back as its halves. */
  lemma StackPointerComposes(m: State, lo: Byte, hi: Byte)
    ensures WriteData(WriteData(m, SPL_ADDR, lo), SPH_ADDR, hi) == m.(sp := Join(lo, hi))
    ensures WriteData(WriteData(m, SPH_ADDR, hi), SPL_ADDR, lo) == m.(sp := Join(lo, hi))
    ensures ReadData(m, SPL_ADDR).value == Lo(m.sp) && ReadData(m, SPH_ADDR).value == Hi(m.sp)
    ensures Join(Lo(m.sp), Hi(m.sp)) == m.sp
  {
    assert Lo(Join(lo, Hi(m.sp))) == lo && Hi(Join(Lo(m.sp), hi)) == hi;
  }

  /** SREG is the same byte through its data address as through its flags. */
  lemma SregIsMapped(m: State, v: Byte)
    ensures ReadData(WriteData(m, SREG_ADDR, v), SREG_ADDR).value == v
    ensures WriteData(m, SREG_ADDR, ReadData(m, SREG_ADDR).value) == m
  {
    SregWritesBack(v);
    SregReadsBack(m.sreg);
  }

  /**
   The addresses just below the top of SRAM are plain down to 0x086F: the region where firmware
   keeps its stack.
   */
  lemma TopOfSramIsPlain(addr: Word)
    requires 0x86F <= addr <= DATA_SPACE_END
    ensures Plain(addr)
  {
  }
}
