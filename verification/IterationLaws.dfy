/**
 One iteration of the execution loop in terms of register bits and vector numbers: which requests are
 raised, which vector is dispatched and how, and when an instruction executes instead.
 */
module IterationLaws {
  import opened Bits
  import opened Alu
  import opened Interrupts
  import opened Machine
  import opened Runs
  import TimerZero
  import Uart

  // ------------------------------------------------------------------ before the interrupt check

  /** Timer0 asks for vector 17 with TOIE0 and TOV0, 15 with OCIE0A and OCF0A, 16 with OCIE0B and OCF0B. */
  predicate TimerAsks(t: TimerZero.Timer, v: Vector) {
    || (v == 17 && Bit(t.timsk0, 0) && Bit(t.tifr0, 0))
    || (v == 15 && Bit(t.timsk0, 1) && Bit(t.tifr0, 1))
    || (v == 16 && Bit(t.timsk0, 2) && Bit(t.tifr0, 2))
  }

  /** A poll is due, the hardware byte is free and a byte is waiting. */
  predicate ByteArrives(m: State) {
    m.cycles >= m.nextPoll && !m.uart.hwReady && m.uart.rxQueue != []
  }

  /** Pending already, raised by Timer0, or the arriving byte's vector 19, if RXCIE is set. */
  predicate Requested(m: State, v: Vector) {
    Raised(m.pending, v) || TimerAsks(m.timer, v) || (v == 19 && ByteArrives(m) && Bit(m.uart.ucsrb, 7))
  }

  /** Raising adds exactly the vectors that Timer0 asks for. */
  lemma TimerRaisesExactly(m: State)
    ensures RaiseTimers(m) == m.(pending := RaiseTimers(m).pending)
    ensures
      forall v: Vector {:trigger Raised(RaiseTimers(m).pending, v)} ::
        Raised(RaiseTimers(m).pending, v) == (Raised(m.pending, v) || TimerAsks(m.timer, v))
  {
    forall v: Vector
      ensures v in TimerRequests(m.timer) <==> TimerAsks(m.timer, v)
    {
    }
  }

  /** A poll every 1024 cycles moves at most one byte, from the front of the queue. */
  lemma PollsExactly(m: State)
    ensures
      var p := Machine.Poll(m);
      && p == m.(uart := p.uart, pending := p.pending,
                 nextPoll := if m.cycles >= m.nextPoll then m.cycles + 1024 else m.nextPoll)
      && p.uart == (if ByteArrives(m)
                    then m.uart.(hwReady := true, hwByte := m.uart.rxQueue[0], rxQueue := m.uart.rxQueue[1..])
                    else m.uart)
      && forall v: Vector {:trigger Raised(p.pending, v)} ::
           Raised(p.pending, v) == (Raised(m.pending, v) || (v == 19 && ByteArrives(m) && Bit(m.uart.ucsrb, 7)))
  {
  }

  /** Before the interrupt check exactly the requested vectors are pending. */
  lemma PendingExactly(m: State)
    ensures
      forall v: Vector {:trigger Raised(BeforeService(m).pending, v)} ::
        Raised(BeforeService(m).pending, v) == Requested(m, v)
    ensures
      BeforeService(m) ==
      m.(pending := BeforeService(m).pending, uart := Machine.Poll(m).uart, nextPoll := Machine.Poll(m).nextPoll)
  {
    hide Machine.Poll, RaiseTimers, ByteArrives, TimerAsks;
    PollsExactly(m);
    TimerRaisesExactly(Machine.Poll(m));
  }

  // ------------------------------------------------------------------ dispatch

  /** Requested, and no vector of a smaller number is. */
  predicate First(m: State, v: Vector) {
    Requested(m, v) && forall u: Vector :: u < v ==> !Requested(m, u)
  }

  /** The two bytes at the vector's address, four bytes per vector, are both 0xFF. */
  predicate Erased(m: State, v: Vector) {
    m.flash[4 * (v - 1)] == 255 && m.flash[4 * (v - 1) + 1] == 255
  }

  /** The TIFR0 bit that goes with the vector. */
  predicate Acknowledges(v: Vector, bit: nat) {
    (v == 17 && bit == 0) || (v == 15 && bit == 1) || (v == 16 && bit == 2)
  }

  lemma SelectedIs(m: State, v: Vector)
    requires m.sreg.i && First(m, v)
    ensures Selected(BeforeService(m)) == Some(v)
  {
    hide BeforeService, Requested, HighestPending;
    PendingExactly(m);
    var ready := BeforeService(m);
    HighestIsMinimum(ready.pending);
    assert Raised(ready.pending, v);
    assert v in Vectors(ready.pending);
    var least: Vector := HighestPending(ready.pending);
    assert Raised(ready.pending, least);
    assert Requested(m, least);
  }

  lemma NoneSelected(m: State)
    requires !m.sreg.i || forall v: Vector :: !Requested(m, v)
    ensures Selected(BeforeService(m)) == None
  {
    hide BeforeService, Requested, HighestPending;
    PendingExactly(m);
    var ready := BeforeService(m);
    HighestIsMinimum(ready.pending);
    if HighestPending(ready.pending) != 0 {
      var least: Vector := HighestPending(ready.pending);
      assert Raised(ready.pending, least);
      assert Requested(m, least);
    }
  }

  lemma ErasedIs(m: State, v: Vector)
    ensures Programmed(m, v) <==> !Erased(m, v)
  {
  }

  /** With interrupts off or nothing requested, an instruction executes. */
  lemma StepExecutes(m: State)
    requires !m.sreg.i || forall v: Vector :: !Requested(m, v)
    ensures Step(m) == Instruction(BeforeService(m))
  {
    hide Instruction, RaiseTimers, Machine.Poll, Selected, Requested;
    NoneSelected(m);
  }

  /** A first vector whose entry is erased is dropped, and an instruction executes. */
  lemma StepSkipsErased(m: State, v: Vector)
    requires m.sreg.i && First(m, v) && Erased(m, v)
    ensures
      var ready := BeforeService(m);
      Step(m) == Instruction(ready.(pending := Clear(ready.pending, v)))
  {
    hide Instruction, RaiseTimers, Machine.Poll, Selected, First, Erased, Programmed, Clear;
    SelectedIs(m, v);
    PendingExactly(m);
    ErasedIs(m, v);
    SameEntry(m, BeforeService(m), v);
  }

  lemma SameEntry(m: State, m': State, v: Vector)
    requires m'.flash == m.flash
    ensures Programmed(m', v) == Programmed(m, v)
  {
  }

  /**
   Otherwise the first requested vector is dispatched: it leaves the pending set, pc is pushed and goes
   to the vector's entry, interrupts go off, and a Timer0 vector has its flag cleared. No instruction
   executes and no time passes.
   */
  lemma StepDispatches(m: State, v: Vector)
    requires m.sreg.i && First(m, v) && !Erased(m, v)
    ensures Step(m).Running?
    ensures
      var ready := BeforeService(m);
      var pushed, after := PushWord(ready.(pending := Clear(ready.pending, v)), m.pc), Step(m).m;
      && after == pushed.(sreg := pushed.sreg.(i := false), pc := 4 * (v - 1),
                          timer := pushed.timer.(tifr0 := after.timer.tifr0))
      && forall j: nat {:trigger Bit(after.timer.tifr0, j)} ::
           Bit(after.timer.tifr0, j) == (Bit(pushed.timer.tifr0, j) && !Acknowledges(v, j))
  {
    hide Instruction, RaiseTimers, Machine.Poll, Selected, First, Erased, Programmed, Clear, PushWord, SetBit8;
    SelectedIs(m, v);
    PendingExactly(m);
    ErasedIs(m, v);
    SameEntry(m, BeforeService(m), v);
  }

  /**
   Progress: with interrupts on, an enabled and flagged Timer0 request is dispatched at once unless a
   vector of a smaller number is requested. pc goes to the vector's entry and the flag is cleared.
   */
  lemma TimerInterruptIsTaken(m: State, v: Vector, bit: nat)
    requires (v, bit) in {(17, 0), (15, 1), (16, 2)}
    requires m.sreg.i && Bit(m.timer.timsk0, bit) && Bit(m.timer.tifr0, bit)
    requires !Erased(m, v) && forall u: Vector :: u < v ==> !Requested(m, u)
    ensures Step(m).Running? && Dispatched(m) == Some(v)
    ensures
      var after := Step(m).m;
      && after.pc == 4 * (v - 1) && !after.sreg.i && !Bit(after.timer.tifr0, bit) && !Raised(after.pending, v)
      && after.cycles == m.cycles
  {
    assert TimerAsks(m.timer, v);
    assert First(m, v);
    hide Instruction, RaiseTimers, Machine.Poll, Selected, First, Erased, Programmed, PushWord, SetBit8, Bit;
    SelectedIs(m, v);
    PendingExactly(m);
    ErasedIs(m, v);
    SameEntry(m, BeforeService(m), v);
    StepDispatches(m, v);
    var ready := BeforeService(m);
    var cleared := ready.(pending := Clear(ready.pending, v));
    PushKeeps(cleared, m.pc);
    assert !Raised(cleared.pending, v);
  }

  lemma PushKeeps(m: State, w: Word)
    ensures PushWord(m, w).pending == m.pending && PushWord(m, w).cycles == m.cycles
  {
    PushByteKeeps(m, Lo(w));
    PushByteKeeps(PushByte(m, Lo(w)), Hi(w));
  }

  lemma PushByteKeeps(m: State, v: Byte)
    ensures PushByte(m, v).pending == m.pending && PushByte(m, v).cycles == m.cycles
  {
  }

  // ------------------------------------------------------------------ runs

  /** Bytes typed at the terminal wait in order at the back of the queue. */
  lemma {:induction false} InjectsExactly(m: State, bytes: seq<Byte>)
    ensures InjectAll(m, bytes) == m.(uart := m.uart.(rxQueue := m.uart.rxQueue + bytes))
    decreases |bytes|
  {
    if bytes == [] {
      assert m.uart.rxQueue + bytes == m.uart.rxQueue;
    } else {
      InjectsExactly(m.(uart := Uart.Inject(m.uart, bytes[0])), bytes[1..]);
      assert m.uart.rxQueue + [bytes[0]] + bytes[1..] == m.uart.rxQueue + bytes;
    }
  }

  /** The machine with bytes typed before its next iteration. */
  function Typed(m: State, bytes: seq<Byte>): State {
    m.(uart := m.uart.(rxQueue := m.uart.rxQueue + bytes))
  }

  /** ms[k + 1] is ms[k] after the bytes of inputs[k] and one iteration. */
  predicate Trace(ms: seq<State>, inputs: seq<seq<Byte>>) {
    |ms| == |inputs| + 1 && forall k :: 0 <= k < |inputs| ==> Step(Typed(ms[k], inputs[k])) == Running(ms[k + 1])
  }

  /** A run is its trace: it ends in the last state, or halts where the next iteration halts. */
  lemma {:induction false} RunIsTrace(ms: seq<State>, inputs: seq<seq<Byte>>, more: seq<seq<Byte>>)
    requires Trace(ms, inputs)
    ensures Run(ms[0], inputs) == Running(ms[|inputs|])
    ensures
      more != [] && Step(Typed(ms[|inputs|], more[0])).Halted? ==>
        Run(ms[0], inputs + more) == Step(Typed(ms[|inputs|], more[0]))
    decreases |inputs|
  {
    hide Step;
    if inputs == [] {
      assert inputs + more == more;
      if more != [] {
        InjectsExactly(ms[0], more[0]);
      }
    } else {
      InjectsExactly(ms[0], inputs[0]);
      assert (inputs + more)[1..] == inputs[1..] + more;
      assert forall k :: 0 <= k < |inputs[1..]| ==>
        Step(Typed(ms[1..][k], inputs[1..][k])) == Step(Typed(ms[k + 1], inputs[k + 1]));
      RunIsTrace(ms[1..], inputs[1..], more);
    }
  }

  /** What the loop resets before its first iteration; everything else is kept. */
  lemma ResetsExactly(m: State)
    ensures Reset(m) == m.(timer := TimerZero.Timer(0, 0, 0, 0, 0, 0, 0, 0), pending := 0, nextPoll := 0)
  {
  }

  /** A machine at the start of a run: SP at 0x08FF, everything else zero but flash, SRAM and pc. */
  lemma BootState(flash: seq<Byte>, sram: seq<Byte>, pc: Word)
    requires |flash| == 0x8000 && |sram| == 0x900
    ensures
      var m := Reset(Blank().(flash := flash, sram := sram, pc := pc));
      && m.flash == flash && m.sram == sram && m.pc == pc && m.sp == 0x8FF
      && (forall i :: 0 <= i < 32 ==> m.r[i] == 0)
      && !m.sreg.c && !m.sreg.z && !m.sreg.n && !m.sreg.v && !m.sreg.s && !m.sreg.h && !m.sreg.t && !m.sreg.i
      && m.timer == TimerZero.Timer(0, 0, 0, 0, 0, 0, 0, 0) && m.uart == Uart.State([], false, 0, [], 0, 0, 0)
      && m.cycles == 0 && m.extra == 0 && m.nextPoll == 0 && m.pending == 0 && !m.fault
  {
  }
}
