/**
 The stack discipline over any mix of PUSH, POP, calls, returns, interrupts and other code, while the
 stack stays in a window of plain SRAM.
 */
module StackLaws {
  import opened Bits
  import opened Alu
  import opened Decoder
  import opened Interrupts
  import opened Machine
  import opened MemoryLaws
  import TimerZero

  /** Addresses from lo to base, all plain; `base` is where SP points when the stack is empty. */
  datatype Window = Window(lo: Word, base: Word)

  ghost predicate IsWindow(w: Window) {
    && STACK_BOTTOM <= w.lo <= w.base <= DATA_SPACE_END
    && forall a: Word :: w.lo <= a <= w.base ==> Plain(a)
  }

  /** The window at the top of SRAM, from reset SP downwards. */
  lemma TopWindow()
    ensures IsWindow(Window(0x86F, DATA_SPACE_END))
  {
    forall a: Word | 0x86F <= a <= DATA_SPACE_END
      ensures Plain(a)
    {
      TopOfSramIsPlain(a);
    }
  }

  predicate InWindow(m: State, w: Window) {
    w.lo <= m.sp + 1 && m.sp <= w.base <= DATA_SPACE_END
  }

  /** The live bytes of the stack, the top first. */
  function Live(m: State, w: Window): seq<Byte>
    requires InWindow(m, w)
  {
    m.sram[m.sp + 1..w.base + 1]
  }

  // ------------------------------------------------------------------ bytes and words

  lemma PushByteLaw(m: State, w: Window, v: Byte)
    requires IsWindow(w) && InWindow(m, w) && m.sp >= w.lo
    ensures PushByte(m, v) == m.(sp := m.sp - 1, sram := m.sram[m.sp := v])
    ensures Live(PushByte(m, v), w) == [v] + Live(m, w)
  {
    PlainIsSram(m, m.sp, v);
  }

  lemma PopByteLaw(m: State, w: Window)
    requires IsWindow(w) && InWindow(m, w) && m.sp < w.base
    ensures PopByte(m) == Access(m.(sp := m.sp + 1), Live(m, w)[0])
    ensures Live(PopByte(m).m, w) == Live(m, w)[1..]
  {
    PlainIsSram(m.(sp := m.sp + 1), m.sp + 1, 0);
  }

  lemma PushWordLaw(m: State, w: Window, value: Word)
    requires IsWindow(w) && InWindow(m, w) && m.sp >= w.lo + 1
    ensures
      PushWord(m, value) == m.(sp := m.sp - 2, sram := m.sram[m.sp := Lo(value)][m.sp - 1 := Hi(value)])
    ensures Live(PushWord(m, value), w) == [Hi(value), Lo(value)] + Live(m, w)
  {
    hide PushByte;
    PushByteLaw(m, w, Lo(value));
    PushByteLaw(PushByte(m, Lo(value)), w, Hi(value));
  }

  lemma PopWordLaw(m: State, w: Window)
    requires IsWindow(w) && InWindow(m, w) && m.sp + 1 < w.base
    ensures PopWord(m) == WordAccess(m.(sp := m.sp + 2), Join(Live(m, w)[1], Live(m, w)[0]))
    ensures Live(PopWord(m).m, w) == Live(m, w)[2..]
  {
    hide PopByte;
    PopByteLaw(m, w);
    PopByteLaw(PopByte(m).m, w);
  }

  // ------------------------------------------------------------------ PUSH and POP at any SP

  /** Off plain SRAM a push writes the Timer0 register behind the address, and nothing else. */
  lemma PushAnywhere(m: State, v: Byte)
    requires STACK_BOTTOM <= m.sp <= DATA_SPACE_END
    ensures
      match TimerZero.WriteRegister(m.timer, TimerOffset(m.sp), v)
      case Some(t) => !Plain(m.sp) && PushByte(m, v) == m.(sp := m.sp - 1, timer := t)
      case None => Plain(m.sp) && PushByte(m, v) == m.(sp := m.sp - 1, sram := m.sram[m.sp := v])
  {
    TimerAliasIsExact(m.timer, m.sp, v);
  }

  /** Clearing the bits of v in t gives v exactly when both are zero. */
  lemma AndNotIsOperand(t: Byte, v: Byte)
    ensures AndNot(t, v) == v <==> t == 0 && v == 0
  {
    forall j: nat
      ensures Bit(AndNot(t, v), j) == (Bit(t, j) && !Bit(v, j)) && !Bit(0, j)
    {
      BitOfAndNot(t, v, j);
      BitOfZero(j);
    }
    if AndNot(t, v) == v {
      forall j: nat
        ensures !Bit(v, j) && !Bit(t, j)
      {
        assert Bit(AndNot(t, v), j) == Bit(v, j);
      }
      BitsDetermine(v, 0);
      BitsDetermine(t, 0);
    }
  }

  /**
   PUSH;POP gives the byte back exactly when SP is not an alias of TIFR0, where writing clears, or when
   the byte and TIFR0 are both zero.
   */
  lemma PushPopExactly(m: State, v: Byte)
    requires STACK_BOTTOM <= m.sp <= DATA_SPACE_END
    ensures PopByte(PushByte(m, v)).m.sp == m.sp
    ensures PopByte(PushByte(m, v)).value == v <==> m.sp % 0x100 != 0x35 || (m.timer.tifr0 == 0 && v == 0)
  {
    PushAnywhere(m, v);
    TimerAliasIsExact(m.timer, m.sp, v);
    AndNotIsOperand(m.timer.tifr0, v);
    hide PushByte, AndNot;
    var p := PushByte(m, v);
    if Plain(m.sp) {
      PlainIsSram(p.(sp := m.sp), m.sp, 0);
    } else {
      TimerAliasIsExact(p.timer, m.sp, v);
    }
  }

  /** 145 bytes below the end of SRAM a push enables Timer0 interrupts. */
  lemma PushIntoTimsk(m: State, v: Byte)
    requires m.sp == 0x86E
    ensures PushByte(m, v) == m.(sp := 0x86D, timer := m.timer.(timsk0 := v))
  {
  }

  // ------------------------------------------------------------------ whole executions

  datatype StackOp =
    | PushReg(d: Reg)
    | PopReg(d: Reg)
    | CallBy(call: FlowIns)
    | ReturnBy(ret: FlowIns)
    | Interrupt(v: Vector)
    | Other

  /**
   One step of an execution. `Other` is any step that keeps SP and the live bytes: arithmetic, loads
   and stores elsewhere, jumps, timer ticks, terminal input, writes below the stack.
   */
  ghost predicate Does(m: State, op: StackOp, m': State, w: Window)
    requires InWindow(m, w)
  {
    match op
    case PushReg(d) => m.sp >= w.lo && m' == ExecuteData(m, Push(d))
    case PopReg(d) => m.sp < w.base && m' == ExecuteData(m, Pop(d))
    case CallBy(f) => (f.Rcall? || f.Call? || f.Icall?) && m.sp >= w.lo + 1 && m' == ExecuteFlow(m, f)
    case ReturnBy(f) => (f.Ret? || f.Reti?) && m.sp + 1 < w.base && m' == ExecuteFlow(m, f)
    case Interrupt(v) => m.sp >= w.lo + 1 && m' == Enter(m, v)
    case Other => m'.sp == m.sp && InWindow(m', w) && Live(m', w) == Live(m, w)
  }

  /** What the step does to an abstract stack of bytes. */
  function OnBytes(m: State, op: StackOp, s: seq<Byte>): seq<Byte> {
    match op
    case PushReg(d) => [m.r[d]] + s
    case PopReg(d) => if |s| < 1 then s else s[1..]
    case CallBy(f) => [Hi(m.pc), Lo(m.pc)] + s
    case ReturnBy(f) => if |s| < 2 then s else s[2..]
    case Interrupt(v) => [Hi(m.pc), Lo(m.pc)] + s
    case Other => s
  }

  /** What the program gets from the stack: POP the top byte, RET and RETI the top word. */
  ghost predicate Receives(m: State, op: StackOp, s: seq<Byte>, m': State) {
    match op
    case PopReg(d) => |s| >= 1 && m'.r == m.r[d := s[0]]
    case ReturnBy(f) => |s| >= 2 && m'.pc == Join(s[1], s[0]) && (f.Reti? ==> m'.sreg == m.sreg.(i := true))
    case _ => true
  }

  /** The step moves the live bytes as the abstract stack says and hands over what is on top of it. */
  ghost predicate Follows(m: State, op: StackOp, m': State, w: Window)
    requires InWindow(m, w)
  {
    && InWindow(m', w)
    && Live(m', w) == OnBytes(m, op, Live(m, w))
    && Receives(m, op, Live(m, w), m')
  }

  lemma PushFollows(m: State, d: Reg, w: Window)
    requires IsWindow(w) && InWindow(m, w) && m.sp >= w.lo
    ensures Follows(m, PushReg(d), ExecuteData(m, Push(d)), w)
  {
    hide PushByte, IsWindow;
    PushByteLaw(m, w, m.r[d]);
  }

  lemma PopFollows(m: State, d: Reg, w: Window)
    requires IsWindow(w) && InWindow(m, w) && m.sp < w.base
    ensures Follows(m, PopReg(d), ExecuteData(m, Pop(d)), w)
  {
    hide PopByte, IsWindow;
    PopByteLaw(m, w);
  }

  lemma CallFollows(m: State, f: FlowIns, w: Window)
    requires IsWindow(w) && InWindow(m, w) && m.sp >= w.lo + 1 && (f.Rcall? || f.Call? || f.Icall?)
    ensures Follows(m, CallBy(f), ExecuteFlow(m, f), w)
  {
    hide PushWord, IsWindow, Live;
    PushWordLaw(m, w, m.pc);
    SameStack(PushWord(m, m.pc), ExecuteFlow(m, f), w);
  }

  lemma ReturnFollows(m: State, f: FlowIns, w: Window)
    requires IsWindow(w) && InWindow(m, w) && m.sp + 1 < w.base && (f.Ret? || f.Reti?)
    ensures Follows(m, ReturnBy(f), ExecuteFlow(m, f), w)
  {
    hide PopWord, IsWindow, Live;
    assert |Live(m, w)| >= 2 by { LiveLength(m, w); }
    PopWordLaw(m, w);
    SameStack(PopWord(m).m, ExecuteFlow(m, f), w);
  }

  lemma InterruptFollows(m: State, v: Vector, w: Window)
    requires IsWindow(w) && InWindow(m, w) && m.sp >= w.lo + 1
    ensures Follows(m, Interrupt(v), Enter(m, v), w)
  {
    hide PushWord, IsWindow, Live;
    var cleared := m.(pending := Clear(m.pending, v));
    PushWordLaw(cleared, w, m.pc);
    SameStack(m, cleared, w);
    SameStack(PushWord(cleared, m.pc), Enter(m, v), w);
  }

  lemma SameStack(a: State, b: State, w: Window)
    requires InWindow(a, w) && a.sp == b.sp && a.sram == b.sram
    ensures InWindow(b, w) && Live(a, w) == Live(b, w)
  {
  }

  lemma LiveLength(m: State, w: Window)
    requires InWindow(m, w)
    ensures |Live(m, w)| == w.base - m.sp
  {
  }

  lemma StepFollowsBytes(m: State, op: StackOp, m': State, w: Window)
    requires IsWindow(w) && InWindow(m, w) && Does(m, op, m', w)
    ensures Follows(m, op, m', w)
  {
    hide ExecuteData, ExecuteFlow, Enter, Follows, IsWindow, Live;
    match op
    case PushReg(d) => PushFollows(m, d, w);
    case PopReg(d) => PopFollows(m, d, w);
    case CallBy(f) => CallFollows(m, f, w);
    case ReturnBy(f) => ReturnFollows(m, f, w);
    case Interrupt(v) => InterruptFollows(m, v, w);
    case Other => OtherFollows(m, m', w);
  }

  lemma OtherFollows(m: State, m': State, w: Window)
    requires InWindow(m, w) && Does(m, Other, m', w)
    ensures Follows(m, Other, m', w)
  {
  }

  /** ms[i] steps to ms[i + 1] by ops[i], every state with its SP in the window. */
  ghost predicate Execution(ms: seq<State>, ops: seq<StackOp>, w: Window) {
    && |ms| == |ops| + 1
    && (forall i :: 0 <= i < |ms| ==> InWindow(ms[i], w))
    && (forall i :: 0 <= i < |ops| ==> Does(ms[i], ops[i], ms[i + 1], w))
  }

  function RunBytes(ms: seq<State>, ops: seq<StackOp>, s: seq<Byte>): seq<Byte>
    requires |ms| == |ops| + 1
  {
    if ops == [] then s
    else OnBytes(ms[|ops| - 1], ops[|ops| - 1], RunBytes(ms[..|ops|], ops[..|ops| - 1], s))
  }

  lemma PrefixExecution(ms: seq<State>, ops: seq<StackOp>, w: Window)
    requires Execution(ms, ops, w) && ops != []
    ensures Execution(ms[..|ops|], ops[..|ops| - 1], w)
  {
    hide Does;
  }

  /**
   Over any execution, the SRAM above SP is exactly the abstract byte stack, and every POP and return
   receives from SRAM what the abstract stack has on top.
   */
  lemma {:induction false} StackRefinesBytes(ms: seq<State>, ops: seq<StackOp>, w: Window)
    requires IsWindow(w) && Execution(ms, ops, w)
    ensures Live(ms[|ops|], w) == RunBytes(ms, ops, Live(ms[0], w))
    ensures forall i :: 0 <= i < |ops| ==> Receives(ms[i], ops[i], Live(ms[i], w), ms[i + 1])
    decreases |ops|
  {
    hide Does, OnBytes, Receives, IsWindow, Live;
    if ops != [] {
      var n := |ops| - 1;
      PrefixExecution(ms, ops, w);
      StackRefinesBytes(ms[..|ops|], ops[..n], w);
      StepFollowsBytes(ms[n], ops[n], ms[n + 1], w);
      forall i | 0 <= i < n
        ensures Receives(ms[i], ops[i], Live(ms[i], w), ms[i + 1])
      {
        assert ms[..|ops|][i] == ms[i] && ms[..|ops|][i + 1] == ms[i + 1] && ops[..n][i] == ops[i];
      }
    }
  }

  /** Bytes that stay below both tops of the abstract stack are kept by any step. */
  lemma DeepBytesStay(m: State, op: StackOp, s: seq<Byte>, k: nat, k': nat)
    requires k <= |s| && k' <= |OnBytes(m, op, s)| && |s| - k == |OnBytes(m, op, s)| - k'
    ensures OnBytes(m, op, s)[k'..] == s[k..]
  {
  }

  lemma StepKeepsUpper(m: State, op: StackOp, m': State, w: Window, top: Word)
    requires IsWindow(w) && InWindow(m, w) && Does(m, op, m', w) && InWindow(m', w)
    requires m.sp <= top <= w.base && m'.sp <= top
    ensures m'.sram[top + 1..w.base + 1] == m.sram[top + 1..w.base + 1]
  {
    hide Does, OnBytes, Receives, IsWindow;
    StepFollowsBytes(m, op, m', w);
    DeepBytesStay(m, op, Live(m, w), top - m.sp, top - m'.sp);
    assert m'.sram[top + 1..w.base + 1] == Live(m', w)[top - m'.sp..];
    assert m.sram[top + 1..w.base + 1] == Live(m, w)[top - m.sp..];
  }

  /** While SP never rises above where it started, the bytes that were live at the start are kept. */
  lemma {:induction false} LowerCodeKeepsStack(ms: seq<State>, ops: seq<StackOp>, w: Window)
    requires IsWindow(w) && Execution(ms, ops, w)
    requires forall i :: 0 <= i < |ms| ==> ms[i].sp <= ms[0].sp
    ensures ms[|ops|].sram[ms[0].sp + 1..w.base + 1] == Live(ms[0], w)
    decreases |ops|
  {
    hide Does, IsWindow;
    if ops != [] {
      var n := |ops| - 1;
      PrefixExecution(ms, ops, w);
      LowerCodeKeepsStack(ms[..|ops|], ops[..n], w);
      StepKeepsUpper(ms[n], ops[n], ms[n + 1], w, ms[0].sp);
    }
  }

  // ------------------------------------------------------------------ calls and handlers return

  /** A body that starts and ends at the same SP and never pops below it. */
  ghost predicate Balanced(ms: seq<State>, ops: seq<StackOp>, w: Window) {
    && Execution(ms, ops, w)
    && (forall i :: 0 <= i < |ms| ==> ms[i].sp <= ms[0].sp)
    && ms[|ops|].sp == ms[0].sp
  }

  /** The return address survives a balanced body and is what the return pops. */
  lemma ReturnAfterBody(before: State, ms: seq<State>, ops: seq<StackOp>, w: Window, ret: FlowIns)
    requires IsWindow(w) && Balanced(ms, ops, w) && InWindow(before, w)
    requires ms[0].sp == before.sp - 2 && before.sp >= w.lo + 1
    requires Live(ms[0], w) == [Hi(before.pc), Lo(before.pc)] + Live(before, w)
    requires ret.Ret? || ret.Reti?
    ensures
      var end := ms[|ops|];
      var after := ExecuteFlow(end, ret);
      && after.pc == before.pc && after.sp == before.sp && InWindow(after, w)
      && Live(after, w) == Live(before, w)
      && after.sreg == (if ret.Reti? then end.sreg.(i := true) else end.sreg)
  {
    hide PopWord;
    var end := ms[|ops|];
    LowerCodeKeepsStack(ms, ops, w);
    assert Live(end, w) == Live(ms[0], w);
    PopWordLaw(end, w);
    assert Live(end, w)[2..] == Live(before, w);
    assert Join(Lo(before.pc), Hi(before.pc)) == before.pc;
  }

  /**
   Interrupt dispatch, any balanced handler (with nested pushes, calls and interrupts), RETI: pc and
   SP are back, the interrupted program's stack is unchanged and interrupts are on.
   */
  lemma HandlerReturns(m: State, v: Vector, ms: seq<State>, ops: seq<StackOp>, w: Window)
    requires IsWindow(w) && InWindow(m, w) && m.sp >= w.lo + 1
    requires Balanced(ms, ops, w) && ms[0] == Enter(m, v)
    ensures
      var after := ExecuteFlow(ms[|ops|], Reti);
      && after.pc == m.pc && after.sp == m.sp && after.sreg.i && InWindow(after, w)
      && Live(after, w) == Live(m, w)
  {
    hide PushWord, ExecuteFlow;
    PushWordLaw(m.(pending := Clear(m.pending, v)), w, m.pc);
    ReturnAfterBody(m, ms, ops, w, Reti);
  }

  /** A call, any balanced body, RET: execution continues behind the call with the same stack. */
  lemma CallReturns(m: State, call: FlowIns, ms: seq<State>, ops: seq<StackOp>, w: Window)
    requires IsWindow(w) && InWindow(m, w) && m.sp >= w.lo + 1
    requires call.Rcall? || call.Call? || call.Icall?
    requires Balanced(ms, ops, w) && ms[0] == ExecuteFlow(m, call)
    ensures
      var after := ExecuteFlow(ms[|ops|], Ret);
      && after.pc == m.pc && after.sp == m.sp && InWindow(after, w)
      && Live(after, w) == Live(m, w)
  {
    hide PushWord, PopWord;
    PushWordLaw(m, w, m.pc);
    ReturnAfterBody(m, ms, ops, w, Ret);
  }
}
