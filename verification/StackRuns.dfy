/** The stack discipline carried from single operations to runs of the execution loop. */
module StackRuns {
  import opened Alu
  import opened Bits
  import opened Decoder
  import opened Interrupts
  import opened Machine
  import opened Runs
  import opened StackLaws
  import TimerZero

  function OpOf(ins: Ins): StackOp {
    match ins
    case Data(Push(d)) => PushReg(d)
    case Data(Pop(d)) => PopReg(d)
    case Flow(f) => if IsCall(f) then CallBy(f) else if IsReturn(f) then ReturnBy(f) else Other
    case _ => Other
  }

  predicate IsCall(f: FlowIns) {
    f.Rcall? || f.Call? || f.Icall?
  }

  predicate IsReturn(f: FlowIns) {
    f.Ret? || f.Reti?
  }

  /** The instruction that the iteration executes, with pc past it. */
  function ToExecute(m: State): Option<Fetched> {
    var s := Service(BeforeService(m));
    if s.vector.Some? then None else Fetch(s.m)
  }

  /** What the iteration does to the stack: an interrupt dispatch or one instruction. */
  function StackOpOf(m: State): StackOp {
    match Dispatched(m)
    case Some(v) => Interrupt(v)
    case None => if ToExecute(m).Some? then OpOf(ToExecute(m).value.ins) else Other
  }

  /** The state in which that happens. */
  function Before(m: State): State {
    match ToExecute(m)
    case Some(f) => f.m.(fault := false, extra := 0)
    case None => BeforeService(m)
  }

  /** The state it leaves behind, before cycles are counted or the timer flag is acknowledged. */
  function After(m: State): State {
    match ToExecute(m)
    case Some(f) => Execute(Before(m), f.ins)
    case None => Service(BeforeService(m)).m
  }

  /** There is room for what is pushed and something to pop. */
  predicate Room(m: State, op: StackOp, w: Window) {
    match op
    case PushReg(_) => m.sp >= w.lo
    case PopReg(_) => m.sp < w.base
    case CallBy(_) => m.sp >= w.lo + 1
    case ReturnBy(_) => m.sp + 1 < w.base
    case Interrupt(_) => m.sp >= w.lo + 1
    case Other => true
  }

  /** The data address that an instruction which is no stack operation stores to. */
  function StoresTo(m: State, ins: Ins): Option<Word> {
    match ins
    case Data(St(x, _, mode)) => Some(if mode == 2 then Wrap16(PairValue(m, x) - 1) else PairValue(m, x))
    case Data(Std(x, _, q)) => Some(Wrap16(PairValue(m, x) + q))
    case Data(Sts(_, addr)) => Some(addr)
    case Data(Out(_, a)) => Some(a + 0x20)
    case Data(Cbi(io, _)) => Some(io + 0x20)
    case Data(Sbi(io, _)) => Some(io + 0x20)
    case _ => None
  }

  /** Neither half of SP nor a live byte. */
  predicate OffStack(m: State, addr: Word, w: Window) {
    addr != SPL_ADDR && addr != SPH_ADDR && !(m.sp < addr <= w.base)
  }

  /** The only condition on code that is no stack operation: where it stores. */
  predicate StoresOffStack(m: State, ins: Ins, w: Window) {
    StoresTo(m, ins).Some? ==> OffStack(m, StoresTo(m, ins).value, w)
  }

  /** A condition on the addresses that the iteration uses, checked before it runs. */
  predicate Disciplined(m: State, w: Window) {
    && Room(Before(m), StackOpOf(m), w)
    && (ToExecute(m).Some? ==> StoresOffStack(Before(m), ToExecute(m).value.ins, w))
  }

  // ------------------------------------------------------------------ other code keeps the stack

  lemma WriteOffStack(m: State, addr: Word, v: Byte, w: Window)
    requires InWindow(m, w) && OffStack(m, addr, w)
    ensures WriteData(m, addr, v).sp == m.sp
    ensures InWindow(WriteData(m, addr, v), w) && Live(WriteData(m, addr, v), w) == Live(m, w)
  {
  }

  lemma ReadKeepsStack(m: State, addr: Word)
    ensures ReadData(m, addr).m.sp == m.sp && ReadData(m, addr).m.sram == m.sram
  {
  }

  lemma LoadKeepsStack(m: State, x: Pointer, d: Reg, mode: nat)
    ensures LoadIndirect(m, x, d, mode).sp == m.sp && LoadIndirect(m, x, d, mode).sram == m.sram
  {
    hide ReadData;
    var p: int := PairValue(m, x);
    ReadKeepsStack(m, p);
    ReadKeepsStack(PutPair(m, x, Wrap16(p - 1)), Wrap16(p - 1));
  }

  lemma StoreKeepsStack(m: State, x: Pointer, d: Reg, mode: nat, w: Window)
    requires InWindow(m, w) && StoresOffStack(m, Data(St(x, d, mode)), w)
    ensures StoreIndirect(m, x, d, mode).sp == m.sp
    ensures InWindow(StoreIndirect(m, x, d, mode), w) && Live(StoreIndirect(m, x, d, mode), w) == Live(m, w)
  {
    hide WriteData, Live;
    var p: int := PairValue(m, x);
    if mode == 2 {
      var m' := PutPair(m, x, Wrap16(p - 1));
      SameStack(m, m', w);
      WriteOffStack(m', Wrap16(p - 1), m'.r[d], w);
    } else {
      WriteOffStack(m, p, m.r[d], w);
      SameStack(WriteData(m, p, m.r[d]), StoreIndirect(m, x, d, mode), w);
    }
  }

  lemma IoBitKeepsStack(m: State, io: Reg, b: BitIndex, on: bool, w: Window)
    requires IsWindow(w) && InWindow(m, w)
    ensures WriteIoBit(m, io, b, on).sp == m.sp
    ensures InWindow(WriteIoBit(m, io, b, on), w) && Live(WriteIoBit(m, io, b, on), w) == Live(m, w)
  {
    hide ReadData, WriteData, Live;
    var a := ReadData(m, io + 0x20);
    ReadKeepsStack(m, io + 0x20);
    SameStack(m, a.m, w);
    WriteOffStack(a.m, io + 0x20, SetBit8(a.value, b, on), w);
  }

  lemma DataKeepsStack(m: State, t: DataIns, w: Window)
    requires IsWindow(w) && InWindow(m, w) && !t.Push? && !t.Pop? && StoresOffStack(m, Data(t), w)
    ensures ExecuteData(m, t).sp == m.sp
    ensures InWindow(ExecuteData(m, t), w) && Live(ExecuteData(m, t), w) == Live(m, w)
  {
    hide ReadData, WriteData, LoadIndirect, StoreIndirect, WriteIoBit, Live, IsWindow;
    match t
    case Ld(x, d, mode) =>
      LoadKeepsStack(m, x, d, mode);
      SameStack(m, ExecuteData(m, t), w);
    case Ldd(x, d, q) =>
      ReadKeepsStack(m, Wrap16(PairValue(m, x) + q));
      SameStack(m, ExecuteData(m, t), w);
    case Lds(d, addr) =>
      ReadKeepsStack(m, addr);
      SameStack(m, ExecuteData(m, t), w);
    case In(d, a) =>
      ReadKeepsStack(m, a + 0x20);
      SameStack(m, ExecuteData(m, t), w);
    case Lpm(d, postInc) => SameStack(m, ExecuteData(m, t), w);
    case Spm => SameStack(m, ExecuteData(m, t), w);
    case St(x, d, mode) => StoreKeepsStack(m, x, d, mode, w);
    case Std(x, d, q) => WriteOffStack(m, Wrap16(PairValue(m, x) + q), m.r[d], w);
    case Sts(d, addr) => WriteOffStack(m, addr, m.r[d], w);
    case Out(d, a) => WriteOffStack(m, a + 0x20, m.r[d], w);
    case Cbi(io, b) => IoBitKeepsStack(m, io, b, false, w);
    case Sbi(io, b) => IoBitKeepsStack(m, io, b, true, w);
  }

  lemma FlowKeepsStack(m: State, f: FlowIns)
    requires !IsCall(f) && !IsReturn(f)
    ensures ExecuteFlow(m, f).sp == m.sp && ExecuteFlow(m, f).sram == m.sram
  {
    hide ReadData, Lookup;
    match f
    case Sbic(io, b) => ReadKeepsStack(m, io + 0x20);
    case Sbis(io, b) => ReadKeepsStack(m, io + 0x20);
    case _ =>
  }

  /**
   Every instruction that is no push, pop, call or return keeps SP and the live bytes, unless it
   stores to SPL, SPH or a live byte.
   */
  lemma OtherKeepsStack(m: State, ins: Ins, w: Window)
    requires IsWindow(w) && InWindow(m, w) && OpOf(ins).Other? && StoresOffStack(m, ins, w)
    ensures Does(m, Other, Execute(m, ins), w)
  {
    hide ExecuteArithmetic, ExecuteLogic, ExecuteData, ExecuteFlow, StoresOffStack, IsWindow, Live;
    match ins
    case Arithmetic(a) => SameStack(m, Execute(m, ins), w);
    case Logic(l) => SameStack(m, Execute(m, ins), w);
    case Data(t) => DataKeepsStack(m, t, w);
    case Flow(f) =>
      FlowKeepsStack(m, f);
      SameStack(m, Execute(m, ins), w);
  }

  lemma PollKeepsStack(m: State)
    ensures
      var ready := BeforeService(m);
      ready.sp == m.sp && ready.sram == m.sram && ready.pc == m.pc
  {
  }

  lemma UnservedKeepsStack(m: State)
    requires Service(m).vector.None?
    ensures Service(m).m.sp == m.sp && Service(m).m.sram == m.sram
  {
    hide Enter;
  }

  /** Getting ready to execute or dispatch moves neither SP nor SRAM. */
  lemma BeforeKeepsStack(m: State, w: Window)
    requires InWindow(m, w)
    ensures InWindow(Before(m), w) && Live(Before(m), w) == Live(m, w)
  {
    hide BeforeService, Service, Fetch;
    PollKeepsStack(m);
    var s := Service(BeforeService(m));
    if s.vector.None? {
      UnservedKeepsStack(BeforeService(m));
      FetchTouchesPcOnly(s.m);
    }
    SameStack(m, Before(m), w);
  }

  lemma DisciplineDoes(m: State, ins: Ins, w: Window)
    requires IsWindow(w) && InWindow(m, w) && Room(m, OpOf(ins), w) && StoresOffStack(m, ins, w)
    ensures Does(m, OpOf(ins), Execute(m, ins), w)
  {
    hide ExecuteData, ExecuteFlow, ExecuteArithmetic, ExecuteLogic, IsWindow, StoresOffStack;
    if OpOf(ins).Other? {
      OtherKeepsStack(m, ins, w);
    }
  }

  lemma DispatchEnters(m: State, v: Vector)
    requires Service(m).vector == Some(v)
    ensures Service(m).m == Enter(m, v)
  {
    hide Enter;
  }

  lemma DispatchDoes(m: State, v: Vector, w: Window)
    requires Service(m).vector == Some(v) && InWindow(m, w) && Room(m, Interrupt(v), w)
    ensures Does(m, Interrupt(v), Service(m).m, w)
  {
    hide Service, Enter;
    DispatchEnters(m, v);
  }

  lemma BeforeInWindow(m: State, w: Window)
    requires InWindow(m, w)
    ensures InWindow(Before(m), w)
  {
    hide Before;
    BeforeKeepsStack(m, w);
  }

  /** The iteration does to the live bytes what its operation does to an abstract stack. */
  lemma IterationFollows(m: State, w: Window)
    requires IsWindow(w) && InWindow(m, w) && Disciplined(m, w) && Step(m).Running?
    ensures Follows(Before(m), StackOpOf(m), After(m), w)
  {
    hide RaiseTimers, Poll, Service, Fetch, Execute, Enter, Room, StoresOffStack, Does, Follows, IsWindow;
    BeforeInWindow(m, w);
    var s := Service(BeforeService(m));
    if s.vector.Some? {
      DispatchDoes(BeforeService(m), s.vector.value, w);
    } else {
      InstructionFetches(s.m);
      DisciplineDoes(Before(m), ToExecute(m).value.ins, w);
    }
    StepFollowsBytes(Before(m), StackOpOf(m), After(m), w);
  }

  /** Counting cycles and acknowledging the timer flag move neither SP, SRAM, registers nor pc. */
  lemma RestOfIteration(m: State)
    requires Step(m).Running?
    ensures
      var m', a := Step(m).m, After(m);
      m'.sp == a.sp && m'.sram == a.sram && m'.r == a.r && m'.pc == a.pc
  {
    hide RaiseTimers, Poll, Service, Fetch, Execute, TimerZero.Ack, TimerZero.Ticked;
    var s := Service(BeforeService(m));
    if s.vector.None? {
      InstructionFetches(s.m);
    }
  }

  /**
   One iteration of the loop, seen from the stack: the live bytes change as an abstract stack does,
   POP delivers the top byte and RET and RETI continue at the top word.
   */
  lemma StepFollowsStack(m: State, w: Window)
    requires IsWindow(w) && InWindow(m, w) && Disciplined(m, w) && Step(m).Running?
    ensures InWindow(Step(m).m, w)
    ensures Live(Step(m).m, w) == OnBytes(Before(m), StackOpOf(m), Live(m, w))
    ensures StackOpOf(m).PopReg? ==> |Live(m, w)| >= 1 && Step(m).m.r[StackOpOf(m).d] == Live(m, w)[0]
    ensures StackOpOf(m).ReturnBy? ==> |Live(m, w)| >= 2 && Step(m).m.pc == Join(Live(m, w)[1], Live(m, w)[0])
  {
    hide Before, StackOpOf, After, Step, OnBytes, Live, IsWindow, Disciplined;
    BeforeKeepsStack(m, w);
    IterationFollows(m, w);
    RestOfIteration(m);
    SameStack(After(m), Step(m).m, w);
  }

  /** Every iteration of the run keeps the discipline. */
  predicate RunDisciplined(m: State, inputs: seq<seq<Byte>>, w: Window)
    decreases |inputs|
  {
    inputs != [] ==>
      var start := InjectAll(m, inputs[0]);
      && Disciplined(start, w)
      && (Step(start).Running? ==> RunDisciplined(Step(start).m, inputs[1..], w))
  }

  /** The run on an abstract stack of bytes. */
  function RunOnBytes(m: State, inputs: seq<seq<Byte>>, s: seq<Byte>): seq<Byte>
    decreases |inputs|
  {
    if inputs == [] then s
    else
      var start := InjectAll(m, inputs[0]);
      if Step(start).Running?
      then RunOnBytes(Step(start).m, inputs[1..], OnBytes(Before(start), StackOpOf(start), s))
      else s
  }

  /**
   Over any run of the execution loop whose stack stays in a plain window - any interleaving of pushes,
   pops, calls, returns and interrupts - the SRAM above SP is exactly the abstract stack.
   */
  lemma {:induction false} RunRefinesStack(m: State, inputs: seq<seq<Byte>>, w: Window)
    requires IsWindow(w) && InWindow(m, w) && RunDisciplined(m, inputs, w) && Run(m, inputs).Running?
    ensures InWindow(Run(m, inputs).m, w)
    ensures Live(Run(m, inputs).m, w) == RunOnBytes(m, inputs, Live(m, w))
    decreases |inputs|
  {
    hide Step, Before, StackOpOf, OnBytes, Live, IsWindow, Disciplined;
    if inputs != [] {
      var start := InjectAll(m, inputs[0]);
      InjectTouchesUartOnly(m, inputs[0]);
      SameStack(m, start, w);
      StepFollowsStack(start, w);
      RunRefinesStack(Step(start).m, inputs[1..], w);
    }
  }

  /** From the reset SP: the stack stays in the top 144 bytes of SRAM, which are plain. */
  lemma ResetRunRefinesStack(m: State, inputs: seq<seq<Byte>>)
    requires m.sp == DATA_SPACE_END && Run(m, inputs).Running?
    requires RunDisciplined(m, inputs, Window(0x86F, DATA_SPACE_END))
    ensures InWindow(Run(m, inputs).m, Window(0x86F, DATA_SPACE_END))
    ensures Live(Run(m, inputs).m, Window(0x86F, DATA_SPACE_END)) == RunOnBytes(m, inputs, [])
  {
    hide Run, RunDisciplined, RunOnBytes, IsWindow;
    TopWindow();
    assert Live(m, Window(0x86F, DATA_SPACE_END)) == [];
    RunRefinesStack(m, inputs, Window(0x86F, DATA_SPACE_END));
  }

  // ------------------------------------------------------------------ returns match calls in a run

  /** SP is at or below `top` before every iteration and at the end. */
  predicate StaysBelow(m: State, inputs: seq<seq<Byte>>, top: Word)
    decreases |inputs|
  {
    && m.sp <= top
    && (inputs != [] && Step(InjectAll(m, inputs[0])).Running? ==>
          StaysBelow(Step(InjectAll(m, inputs[0])).m, inputs[1..], top))
  }

  lemma StepKeepsAbove(m: State, w: Window, top: Word)
    requires IsWindow(w) && InWindow(m, w) && Disciplined(m, w) && Step(m).Running?
    requires m.sp <= top <= w.base && Step(m).m.sp <= top
    ensures
      && InWindow(Step(m).m, w)
      && top - Step(m).m.sp <= |Live(Step(m).m, w)| && top - m.sp <= |Live(m, w)|
      && Live(Step(m).m, w)[top - Step(m).m.sp..] == Live(m, w)[top - m.sp..]
  {
    hide Step, Before, StackOpOf, OnBytes, Live, IsWindow, Disciplined;
    StepFollowsStack(m, w);
    LiveLength(m, w);
    LiveLength(Step(m).m, w);
    DeepBytesStay(Before(m), StackOpOf(m), Live(m, w), top - m.sp, top - Step(m).m.sp);
  }

  /** The live bytes from `top` upwards. */
  function Above(m: State, w: Window, top: Word): seq<Byte>
    requires InWindow(m, w) && m.sp <= top <= w.base
  {
    Live(m, w)[top - m.sp..]
  }

  lemma {:induction false} RunKeepsAbove(m: State, inputs: seq<seq<Byte>>, w: Window, top: Word)
    requires IsWindow(w) && InWindow(m, w) && RunDisciplined(m, inputs, w) && Run(m, inputs).Running?
    requires top <= w.base && StaysBelow(m, inputs, top)
    ensures InWindow(Run(m, inputs).m, w) && Run(m, inputs).m.sp <= top
    ensures Above(Run(m, inputs).m, w, top) == Above(m, w, top)
    decreases |inputs|
  {
    hide Step, Live, IsWindow, Disciplined;
    if inputs != [] {
      var start := InjectAll(m, inputs[0]);
      InjectTouchesUartOnly(m, inputs[0]);
      SameStack(m, start, w);
      StepKeepsAbove(start, w, top);
      RunKeepsAbove(Step(start).m, inputs[1..], w, top);
    }
  }

  /** The iteration saves a return address: a call or an interrupt dispatch. */
  predicate Enters(m: State) {
    StackOpOf(m).CallBy? || StackOpOf(m).Interrupt?
  }

  lemma EntryPushes(m: State, w: Window)
    requires IsWindow(w) && InWindow(m, w) && Disciplined(m, w) && Step(m).Running? && Enters(m)
    ensures
      && InWindow(Step(m).m, w) && Step(m).m.sp == m.sp - 2
      && Live(Step(m).m, w) == [Hi(Before(m).pc), Lo(Before(m).pc)] + Live(m, w)
  {
    hide Step, Before, StackOpOf, Live, IsWindow, Disciplined;
    StepFollowsStack(m, w);
    LiveLength(m, w);
    LiveLength(Step(m).m, w);
  }

  lemma ReturnPops(m: State, w: Window)
    requires IsWindow(w) && InWindow(m, w) && Disciplined(m, w) && Step(m).Running? && StackOpOf(m).ReturnBy?
    ensures
      && InWindow(Step(m).m, w) && |Live(m, w)| >= 2 && Step(m).m.sp == m.sp + 2
      && Step(m).m.pc == Join(Live(m, w)[1], Live(m, w)[0]) && Live(Step(m).m, w) == Live(m, w)[2..]
  {
    hide Step, Before, StackOpOf, Live, IsWindow, Disciplined;
    StepFollowsStack(m, w);
    LiveLength(m, w);
    LiveLength(Step(m).m, w);
  }

  /**
   In a run of the execution loop: a call or interrupt, then any iterations that never rise above the
   depth it left (nested calls and interrupts included) and come back to it, then RET or RETI. The
   return goes to the pc that its call or interrupt saved, with SP and the stack as they were.
   */
  lemma RunReturnsToMatch(m: State, body: seq<seq<Byte>>, last: seq<Byte>, w: Window)
    requires IsWindow(w) && InWindow(m, w) && Disciplined(m, w) && Enters(m) && Step(m).Running?
    requires RunDisciplined(Step(m).m, body, w) && Run(Step(m).m, body).Running?
    requires StaysBelow(Step(m).m, body, Step(m).m.sp) && Run(Step(m).m, body).m.sp == Step(m).m.sp
    requires
      var end := InjectAll(Run(Step(m).m, body).m, last);
      Disciplined(end, w) && StackOpOf(end).ReturnBy? && Step(end).Running?
    ensures
      var after := Step(InjectAll(Run(Step(m).m, body).m, last)).m;
      && after.pc == Before(m).pc && after.sp == m.sp && InWindow(after, w) && Live(after, w) == Live(m, w)
  {
    hide Step, Run, RunDisciplined, StaysBelow, Before, StackOpOf, Live, IsWindow, Disciplined, Enters;
    var inside := Step(m).m;
    EntryPushes(m, w);
    RunKeepsAbove(inside, body, w, inside.sp);
    var left := Run(inside, body).m;
    assert Live(left, w) == Live(inside, w);
    var end := InjectAll(left, last);
    InjectTouchesUartOnly(left, last);
    SameStack(left, end, w);
    ReturnPops(end, w);
    JoinBack(Before(m).pc);
  }

  lemma JoinBack(w: Word)
    ensures Join(Lo(w), Hi(w)) == w
  {
  }
}
