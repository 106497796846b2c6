/** Whole-run properties of the execution loop: interrupt accounting and elapsed timer ticks. */
module Runs {
  import opened Bits
  import opened Decoder
  import opened Interrupts
  import opened Machine
  import opened Frames
  import TimerZero
  import TimerLaws
  import Uart

  // ------------------------------------------------------------------ what one iteration does

  /** The state in which one iteration looks for an interrupt. */
  function BeforeService(m: State): State {
    RaiseTimers(Machine.Poll(m))
  }

  /** The vector that the iteration dispatches. */
  function Dispatched(m: State): Option<Vector> {
    Service(BeforeService(m)).vector
  }

  /** The state after the instruction of this iteration and before its cycles reach Timer0. */
  function BeforeTick(m: State): Option<State> {
    var s := Service(BeforeService(m));
    if s.vector.Some? || Fetch(s.m).None? then None
    else
      var f := Fetch(s.m).value;
      Some(Execute(f.m.(fault := false, extra := 0), f.ins))
  }

  /** TIFR0 bit `bit` goes from 0 to 1 in this iteration. */
  predicate Rose(m: State, bit: nat) {
    && BeforeTick(m).Some?
    && Step(m).Running?
    && !Bit(BeforeTick(m).value.timer.tifr0, bit)
    && Bit(Step(m).m.timer.tifr0, bit)
  }

  // ------------------------------------------------------------------ dispatches never exceed rises

  /** 1 when a request for the vector is still outstanding: flagged in TIFR0 or pending. */
  function Outstanding(m: State, v: Vector, bit: nat): nat {
    if Bit(m.timer.tifr0, bit) || Raised(m.pending, v) then 1 else 0
  }

  function Count(b: bool): nat {
    if b then 1 else 0
  }

  lemma QuietOutstanding(m: State, m': State, v: Vector, bit: nat)
    requires TimerBit(v) == Some(bit) && Quiet(m, m')
    ensures Outstanding(m', v, bit) <= Outstanding(m, v, bit)
    ensures Raised(m'.pending, v) == Raised(m.pending, v)
  {
  }

  lemma PollQuiet(m: State)
    ensures Raised(Machine.Poll(m).pending, TIMER0_OVF) == Raised(m.pending, TIMER0_OVF)
    ensures forall v: Vector :: IsTimerVector(v) ==> Raised(Machine.Poll(m).pending, v) == Raised(m.pending, v)
    ensures Machine.Poll(m).timer == m.timer && Machine.Poll(m).cycles == m.cycles
  {
    UartRaisesNoTimerVector(m.pending, Uart.Poll(m.uart).raised);
  }

  /** Turning a flag into a pending bit does not change what is outstanding. */
  lemma RaiseKeepsOutstanding(m: State, v: Vector, bit: nat)
    requires TimerBit(v) == Some(bit)
    ensures Outstanding(RaiseTimers(m), v, bit) == Outstanding(m, v, bit)
    ensures RaiseTimers(m).timer == m.timer && RaiseTimers(m).cycles == m.cycles
  {
    assert v in TimerRequests(m.timer) <==> TimerZero.Pending(m.timer, bit);
  }

  lemma TimerBitsDiffer(u: Vector, v: Vector)
    requires TimerBit(u).Some? && TimerBit(u) == TimerBit(v)
    ensures u == v
  {
  }

  /** A dispatch uses up the outstanding request of its own vector and touches no other. */
  lemma ServiceBalance(m: State, v: Vector, bit: nat)
    requires TimerBit(v) == Some(bit)
    ensures
      var s := Service(m);
      && (s.vector.None? ==> Outstanding(s.m, v, bit) <= Outstanding(m, v, bit) && s.m.timer == m.timer)
      && (s.vector.Some? ==>
            Outstanding(Acknowledge(s.m, s.vector.value), v, bit) + Count(s.vector == Some(v)) <= Outstanding(m, v, bit))
  {
    hide PushWord;
    var s := Service(m);
    if s.vector.Some? {
      var u := s.vector.value;
      HighestIsMinimum(m.pending);
      assert Raised(m.pending, u);
      var cleared := m.(pending := Clear(m.pending, u));
      PushWordQuiet(cleared, m.pc);
      QuietOutstanding(cleared, PushWord(cleared, m.pc), v, bit);
      if u != v && TimerBit(u).Some? && TimerBit(u) == TimerBit(v) {
        TimerBitsDiffer(u, v);
      }
    }
  }

  /** Executing an instruction adds an outstanding request only where a flag rises. */
  lemma InstructionBalance(m: State, v: Vector, bit: nat)
    requires TimerBit(v) == Some(bit) && Instruction(m).Running? && Fetch(m).Some?
    ensures
      var f := Fetch(m).value;
      var executed := Execute(f.m.(fault := false, extra := 0), f.ins);
      var m' := Instruction(m).m;
      Outstanding(m', v, bit)
        <= Outstanding(m, v, bit) + Count(!Bit(executed.timer.tifr0, bit) && Bit(m'.timer.tifr0, bit))
  {
    hide Execute;
    FetchTouchesPcOnly(m);
    var f := Fetch(m).value;
    var ready := f.m.(fault := false, extra := 0);
    ExecuteQuiet(ready, f.ins);
    QuietOutstanding(ready, Execute(ready, f.ins), v, bit);
  }

  lemma FetchTouchesPcOnly(m: State)
    ensures Fetch(m).Some? ==> Fetch(m).value.m == m.(pc := Fetch(m).value.m.pc)
  {
    hide Lookup, Operands;
  }

  lemma StepBalance(m: State, v: Vector, bit: nat)
    requires TimerBit(v) == Some(bit) && Step(m).Running?
    ensures Count(Dispatched(m) == Some(v)) + Outstanding(Step(m).m, v, bit)
            <= Outstanding(m, v, bit) + Count(Rose(m, bit))
  {
    hide Service, Instruction, Acknowledge, Execute, Fetch;
    var ready := BeforeService(m);
    PollQuiet(m);
    RaiseKeepsOutstanding(Machine.Poll(m), v, bit);
    ServiceBalance(ready, v, bit);
    var s := Service(ready);
    if s.vector.None? {
      InstructionFetches(s.m);
      InstructionBalance(s.m, v, bit);
    }
  }

  lemma InstructionFetches(m: State)
    ensures Instruction(m).Running? ==> Fetch(m).Some?
  {
    hide Fetch, Execute;
  }

  /** Number of iterations of the run that dispatch v. */
  function Dispatches(m: State, inputs: seq<seq<Byte>>, v: Vector): nat
    decreases |inputs|
  {
    if inputs == [] then 0
    else
      var start := InjectAll(m, inputs[0]);
      Count(Dispatched(start) == Some(v))
      + if Step(start).Running? then Dispatches(Step(start).m, inputs[1..], v) else 0
  }

  /** Number of iterations of the run in which TIFR0 bit `bit` goes from 0 to 1. */
  function Rises(m: State, inputs: seq<seq<Byte>>, bit: nat): nat
    decreases |inputs|
  {
    if inputs == [] then 0
    else
      var start := InjectAll(m, inputs[0]);
      Count(Rose(start, bit))
      + if Step(start).Running? then Rises(Step(start).m, inputs[1..], bit) else 0
  }

  lemma {:induction false} InjectTouchesUartOnly(m: State, bytes: seq<Byte>)
    ensures InjectAll(m, bytes) == m.(uart := InjectAll(m, bytes).uart)
    decreases |bytes|
  {
    if bytes != [] {
      InjectTouchesUartOnly(m.(uart := Uart.Inject(m.uart, bytes[0])), bytes[1..]);
    }
  }

  lemma DispatchRuns(m: State, v: Vector)
    requires Dispatched(m) == Some(v)
    ensures Step(m).Running?
  {
    hide Service, Instruction;
  }

  /** From any state: dispatches and what is outstanding at the end are paid for by rises. */
  lemma {:induction false} RunBalance(m: State, inputs: seq<seq<Byte>>, v: Vector, bit: nat)
    requires TimerBit(v) == Some(bit)
    ensures
      var end := Run(m, inputs);
      Dispatches(m, inputs, v) + (if end.Running? then Outstanding(end.m, v, bit) else 0)
        <= Outstanding(m, v, bit) + Rises(m, inputs, bit)
    decreases |inputs|
  {
    hide Step, Dispatched, Rose;
    if inputs != [] {
      var start := InjectAll(m, inputs[0]);
      InjectTouchesUartOnly(m, inputs[0]);
      if Step(start).Running? {
        StepBalance(start, v, bit);
        RunBalance(Step(start).m, inputs[1..], v, bit);
      } else if Dispatched(start) == Some(v) {
        DispatchRuns(start, v);
      }
    }
  }

  /**
   Over any run of the execution loop, for each Timer0 vector, dispatches plus one for a request
   still outstanding never exceed the 0-to-1 rises of its flag: no interrupt is ever delivered twice
   for one event, whatever firmware writes and whatever arrives from the terminal.
   */
  lemma DispatchesNeverExceedRises(m: State, inputs: seq<seq<Byte>>, v: Vector, bit: nat)
    requires TimerBit(v) == Some(bit)
    ensures
      var end := Run(Reset(m), inputs);
      Dispatches(Reset(m), inputs, v) + (if end.Running? then Outstanding(end.m, v, bit) else 0)
        <= Rises(Reset(m), inputs, bit)
  {
    RunBalance(Reset(m), inputs, v, bit);
    BitOfZero(bit);
    BitOfZero(v - 1);
  }

  // ------------------------------------------------------------------ elapsed ticks

  /** Every state that the loop can reach keeps fewer than 1024 cycles in the prescaler. */
  lemma StepKeepsAccSmall(m: State)
    requires m.timer.acc < 1024 && Step(m).Running?
    ensures Step(m).m.timer.acc < 1024 && Step(m).m.cycles >= m.cycles
  {
    hide Service, Fetch, Execute, Acknowledge;
    var ready := BeforeService(m);
    PollQuiet(m);
    ServiceQuiet(ready);
    var s := Service(ready);
    if s.vector.None? {
      InstructionFetches(s.m);
      FetchTouchesPcOnly(s.m);
      var f := Fetch(s.m).value;
      ExecuteQuiet(f.m.(fault := false, extra := 0), f.ins);
      TimerLaws.AccumulatorStaysSmall(BeforeTick(m).value.timer, f.cycles + BeforeTick(m).value.extra);
    }
  }

  lemma ServiceQuiet(m: State)
    ensures
      var s := Service(m);
      && s.m.cycles == m.cycles
      && (s.vector.None? ==> s.m.timer == m.timer)
      && (s.vector.Some? ==> Acknowledge(s.m, s.vector.value).cycles == m.cycles)
      && (s.vector.Some? ==> Acknowledge(s.m, s.vector.value).timer.acc in {m.timer.acc, 0})
  {
    hide PushWord, TimerZero.Ack;
    match Selected(m)
    case None =>
    case Some(v) =>
      PushWordQuiet(m.(pending := Clear(m.pending, v)), m.pc);
      AckKeepsCount(Service(m).m.timer);
  }

  lemma AckKeepsCount(t: TimerZero.Timer)
    ensures forall bit: nat | bit < 8 :: SameCounting(TimerZero.Ack(t, bit), t)
  {
  }

  lemma {:induction false} AccStaysSmall(m: State, inputs: seq<seq<Byte>>)
    requires m.timer.acc < 1024 && Run(m, inputs).Running?
    ensures Run(m, inputs).m.timer.acc < 1024 && Run(m, inputs).m.cycles >= m.cycles
    decreases |inputs|
  {
    hide Step;
    if inputs != [] {
      var start := InjectAll(m, inputs[0]);
      InjectTouchesUartOnly(m, inputs[0]);
      StepKeepsAccSmall(start);
      AccStaysSmall(Step(start).m, inputs[1..]);
    }
  }

  /** The registers that decide how the counter moves. */
  predicate SameCounting(a: TimerZero.Timer, b: TimerZero.Timer) {
    && a.tccr0a == b.tccr0a && a.tccr0b == b.tccr0b && a.ocr0a == b.ocr0a
    && a.tcnt0 == b.tcnt0 && a.acc == b.acc
  }

  /** b is a after `cycles` cycles, counted without any width limit. */
  predicate Elapsed(a: TimerZero.Timer, b: TimerZero.Timer, cycles: nat)
    requires TimerZero.Divider(a.tccr0b) != 0
  {
    var div := TimerZero.Divider(a.tccr0b);
    && b.tccr0a == a.tccr0a && b.tccr0b == a.tccr0b && b.ocr0a == a.ocr0a
    && b.tcnt0 == TimerZero.CountAfter(a, (a.acc + cycles) / div)
    && b.acc == (a.acc + cycles) % div
  }

  /** This iteration neither writes Timer0 nor, on its way to a dispatch, pushes over its registers. */
  predicate LeavesTimerAlone(m: State) {
    if BeforeTick(m).Some? then SameCounting(BeforeTick(m).value.timer, m.timer)
    else Step(m).Running? ==> SameCounting(Step(m).m.timer, m.timer)
  }

  predicate AlwaysLeavesTimerAlone(m: State, inputs: seq<seq<Byte>>)
    decreases |inputs|
  {
    inputs != [] ==>
      var start := InjectAll(m, inputs[0]);
      && LeavesTimerAlone(start)
      && (Step(start).Running? ==> AlwaysLeavesTimerAlone(Step(start).m, inputs[1..]))
  }

  lemma TickElapses(a: TimerZero.Timer, b: TimerZero.Timer, cycles: Word)
    requires SameCounting(a, b) && a.acc < 1024 && cycles < 1024 && TimerZero.Divider(a.tccr0b) != 0
    ensures Elapsed(a, TimerZero.Ticked(b, cycles), cycles)
  {
  }

  lemma RestElapses(t: TimerZero.Timer)
    requires TimerZero.Divider(t.tccr0b) != 0 && t.acc < TimerZero.Divider(t.tccr0b)
    ensures forall t' :: SameCounting(t', t) ==> Elapsed(t, t', 0)
  {
    ModUnique(t.acc, TimerZero.Divider(t.tccr0b), 0, t.acc);
    TimerZero.NoTicksYet(t, t.acc);
  }

  /** b is q whole ticks after a, counted from n cycles. */
  predicate TicksApart(a: TimerZero.Timer, b: TimerZero.Timer, n: nat, q: nat) {
    && b.tccr0a == a.tccr0a && b.tccr0b == a.tccr0b && b.ocr0a == a.ocr0a
    && b.tcnt0 == TimerZero.CountAfter(a, q)
    && a.acc + n == q * TimerZero.Divider(a.tccr0b) + b.acc && b.acc < TimerZero.Divider(a.tccr0b)
  }

  lemma ElapsedAsTicks(a: TimerZero.Timer, b: TimerZero.Timer, n: nat) returns (q: nat)
    requires TimerZero.Divider(a.tccr0b) != 0 && Elapsed(a, b, n)
    ensures TicksApart(a, b, n, q)
  {
    hide TimerZero.Divider, TimerZero.CountAfter;
    var div := TimerZero.Divider(a.tccr0b);
    var r;
    q, r := TimerLaws.Quotient(a.acc + n, div);
    ModUnique(a.acc + n, div, q, r);
  }

  lemma TicksAsElapsed(a: TimerZero.Timer, b: TimerZero.Timer, n: nat, q: nat)
    requires TimerZero.Divider(a.tccr0b) != 0 && TicksApart(a, b, n, q)
    ensures Elapsed(a, b, n)
  {
    hide TimerZero.Divider, TimerZero.CountAfter;
    ModUnique(a.acc + n, TimerZero.Divider(a.tccr0b), q, b.acc);
  }

  lemma ElapsedComposes(a: TimerZero.Timer, b: TimerZero.Timer, c: TimerZero.Timer, n: nat, k: nat)
    requires TimerZero.Divider(a.tccr0b) != 0 && Elapsed(a, b, n) && Elapsed(b, c, k)
    ensures Elapsed(a, c, n + k)
  {
    hide TimerZero.Divider, TimerZero.CountAfter, TimerZero.FlagsAfter, Elapsed;
    ElapsedFacts(a, b, n);
    var q := ElapsedAsTicks(a, b, n);
    var q' := ElapsedAsTicks(b, c, k);
    MulDistributes(q, q', TimerZero.Divider(a.tccr0b));
    var b' := TimerZero.AfterTicks(a, q, b.acc);
    TimerLaws.CountCompose(a, b', q, q');
    CountsAlike(b, b', q');
    TicksAsElapsed(a, c, n + k, q + q');
  }

  /** What the counter will show depends on the mode, TOP and TCNT0 only. */
  lemma CountsAlike(a: TimerZero.Timer, b: TimerZero.Timer, n: nat)
    requires a.tccr0a == b.tccr0a && a.tccr0b == b.tccr0b && a.ocr0a == b.ocr0a && a.tcnt0 == b.tcnt0
    ensures TimerZero.CountAfter(a, n) == TimerZero.CountAfter(b, n)
  {
  }

  /** An iteration that leaves the timer alone either takes no time or moves it by its cycles. */
  lemma StepElapses(m: State)
    requires Step(m).Running? && LeavesTimerAlone(m) && m.timer.acc < 1024
    requires TimerZero.Divider(m.timer.tccr0b) != 0
    ensures
      var m' := Step(m).m;
      && m'.cycles >= m.cycles
      && (if m'.cycles == m.cycles then SameCounting(m'.timer, m.timer)
          else Elapsed(m.timer, m'.timer, m'.cycles - m.cycles))
  {
    hide Service, Fetch, Execute, Acknowledge, Elapsed;
    var ready := BeforeService(m);
    PollQuiet(m);
    ServiceQuiet(ready);
    var s := Service(ready);
    if s.vector.None? {
      InstructionFetches(s.m);
      FetchTouchesPcOnly(s.m);
      var f := Fetch(s.m).value;
      ExecuteQuiet(f.m.(fault := false, extra := 0), f.ins);
      TickElapses(m.timer, BeforeTick(m).value.timer, f.cycles + BeforeTick(m).value.extra);
    }
  }

  /**
   Over any run that leaves Timer0 alone with its clock running, the counter moves by exactly
   (acc + elapsed cycles) div divider ticks and the remainder stays in the prescaler, however the
   cycles were batched into instructions and wherever interrupts were taken. A prescaler holding more
   than one divider (left by a change of divider) is drained by the first instruction.
   */
  lemma {:induction false} RunElapses(m: State, inputs: seq<seq<Byte>>)
    requires Run(m, inputs).Running? && AlwaysLeavesTimerAlone(m, inputs) && m.timer.acc < 1024
    requires TimerZero.Divider(m.timer.tccr0b) != 0
    requires m.timer.acc < TimerZero.Divider(m.timer.tccr0b) || Run(m, inputs).m.cycles > m.cycles
    ensures Run(m, inputs).m.cycles >= m.cycles
    ensures Elapsed(m.timer, Run(m, inputs).m.timer, Run(m, inputs).m.cycles - m.cycles)
    decreases |inputs|
  {
    hide Step, LeavesTimerAlone, Elapsed;
    var div := TimerZero.Divider(m.timer.tccr0b);
    if m.timer.acc < div {
      RestElapses(m.timer);
    }
    if inputs != [] {
      var start := InjectAll(m, inputs[0]);
      InjectTouchesUartOnly(m, inputs[0]);
      StepElapses(start);
      StepKeepsAccSmall(start);
      var next := Step(start).m;
      var end := Run(m, inputs).m;
      if next.cycles > m.cycles {
        ElapsedFacts(m.timer, next.timer, next.cycles - m.cycles);
        RunElapses(next, inputs[1..]);
        ElapsedComposes(m.timer, next.timer, end.timer, next.cycles - m.cycles, end.cycles - next.cycles);
      } else {
        RunElapses(next, inputs[1..]);
        SameCountingElapses(m.timer, next.timer, end.timer, end.cycles - next.cycles);
      }
    }
  }

  lemma ElapsedFacts(a: TimerZero.Timer, b: TimerZero.Timer, n: nat)
    requires TimerZero.Divider(a.tccr0b) != 0 && Elapsed(a, b, n)
    ensures b.tccr0b == a.tccr0b && b.acc < TimerZero.Divider(a.tccr0b)
  {
  }

  lemma SameCountingElapses(a: TimerZero.Timer, b: TimerZero.Timer, c: TimerZero.Timer, n: nat)
    requires TimerZero.Divider(a.tccr0b) != 0 && SameCounting(b, a) && Elapsed(b, c, n)
    ensures Elapsed(a, c, n)
  {
    CountsAlike(a, b, (a.acc + n) / TimerZero.Divider(a.tccr0b));
  }
}
