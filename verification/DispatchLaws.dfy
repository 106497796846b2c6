/** Interrupt priority: the pending set is served in strictly increasing order, each vector once. */
module DispatchLaws {
  import opened Bits
  import opened Alu
  import opened Decoder
  import opened Interrupts
  import opened Machine
  import opened Runs
  import TimerZero

  /** A push can reach SRAM or a Timer0 alias; it never touches flash, pending requests or flags. */
  lemma PushKeepsRequests(m: State, w: Word)
    ensures
      var m' := PushWord(m, w);
      && m'.pending == m.pending && m'.flash == m.flash && m'.sreg == m.sreg && m'.pc == m.pc
  {
    PushByteKeepsRequests(m, Lo(w));
    PushByteKeepsRequests(PushByte(m, Lo(w)), Hi(w));
  }

  lemma PushByteKeepsRequests(m: State, v: Byte)
    ensures
      var m' := PushByte(m, v);
      && m'.pending == m.pending && m'.flash == m.flash && m'.sreg == m.sreg && m'.pc == m.pc
  {
  }

  /**
   One service call: nothing happens with interrupts off or nothing pending; otherwise the least
   pending vector leaves the set, and if its flash entry is programmed the program continues at
   4 * (v - 1) with interrupts off and the old pc on the stack.
   */
  lemma ServicePicksMinimum(m: State)
    ensures
      var s := Service(m);
      if !m.sreg.i || Vectors(m.pending) == {} then s == Serviced(m, None)
      else
        exists v: Vector ::
          && v in Vectors(m.pending)
          && (forall u: Vector :: u in Vectors(m.pending) ==> v <= u)
          && Vectors(s.m.pending) == Vectors(m.pending) - {v}
          && s.m.flash == m.flash
          && (if Programmed(m, v)
              then s.vector == Some(v) && s.m.pc == 4 * (v - 1) && s.m.sreg == m.sreg.(i := false)
                   && s.m == PushWord(m.(pending := s.m.pending), m.pc).(sreg := s.m.sreg, pc := s.m.pc)
              else s.vector == None && s.m == m.(pending := s.m.pending))
  {
    hide PushWord, Programmed;
    HighestIsMinimum(m.pending);
    if m.sreg.i && HighestPending(m.pending) != 0 {
      var v: Vector := HighestPending(m.pending);
      MaskRefinesSet(m.pending, v);
      PushKeepsRequests(m.(pending := Clear(m.pending, v)), m.pc);
    }
  }

  lemma ServiceShrinks(m: State)
    requires m.sreg.i && m.pending != 0
    ensures |Vectors(Service(m).m.pending)| < |Vectors(m.pending)|
  {
    hide Service;
    EmptyMask(m.pending);
    ServicePicksMinimum(m);
  }

  /** Firmware sets I between two service calls. */
  function Enabled(m: State): State {
    m.(sreg := m.sreg.(i := true))
  }

  /** The vectors dispatched by calling service until nothing is pending, with I set before each call. */
  ghost function ServeAll(m: State): seq<Vector>
    decreases |Vectors(m.pending)|
  {
    if m.pending == 0 then []
    else
      ServiceShrinks(Enabled(m));
      var s := Service(Enabled(m));
      (if s.vector.Some? then [s.vector.value] else []) + ServeAll(s.m)
  }

  /** The number of service calls until nothing is pending. */
  ghost function CallsUntilIdle(m: State): nat
    decreases |Vectors(m.pending)|
  {
    if m.pending == 0 then 0
    else
      ServiceShrinks(Enabled(m));
      1 + CallsUntilIdle(Service(Enabled(m)).m)
  }

  ghost predicate Increasing(vs: seq<Vector>) {
    forall i, j :: 0 <= i < j < |vs| ==> vs[i] < vs[j]
  }

  /** One round: the least pending vector v is taken out, and dispatched if it is programmed. */
  ghost predicate Served(m: State, v: Vector) {
    var s := Service(Enabled(m));
    && v in Vectors(m.pending)
    && (forall u: Vector :: u in Vectors(m.pending) ==> v <= u)
    && Vectors(s.m.pending) == Vectors(m.pending) - {v}
    && s.m.flash == m.flash
    && s.vector == (if Programmed(m, v) then Some(v) else None)
  }

  lemma ServeOne(m: State) returns (v: Vector)
    requires m.pending != 0
    ensures Served(m, v)
  {
    hide Service, Programmed;
    var on := Enabled(m);
    EmptyMask(m.pending);
    ServicePicksMinimum(on);
    SameFlash(on, m);
    v :|
      && v in Vectors(m.pending)
      && (forall u: Vector :: u in Vectors(m.pending) ==> v <= u)
      && Vectors(Service(on).m.pending) == Vectors(m.pending) - {v}
      && Service(on).m.flash == m.flash
      && Service(on).vector == (if Programmed(on, v) then Some(v) else None);
  }

  lemma SameFlash(a: State, b: State)
    requires a.flash == b.flash
    ensures forall v: Vector :: Programmed(a, v) == Programmed(b, v)
  {
  }

  ghost predicate InOrder(m: State) {
    && Increasing(ServeAll(m))
    && (forall v: Vector :: v in ServeAll(m) <==> v in Vectors(m.pending) && Programmed(m, v))
    && CallsUntilIdle(m) == |Vectors(m.pending)|
  }

  lemma IncreasingFromLeast(v: Vector, vs: seq<Vector>)
    requires Increasing(vs) && forall u :: u in vs ==> v < u
    ensures Increasing([v] + vs)
  {
    forall i, j | 0 <= i < j < |vs| + 1
      ensures ([v] + vs)[i] < ([v] + vs)[j]
    {
      assert vs[j - 1] in vs;
    }
  }

  lemma OneRound(m: State, v: Vector)
    requires m.pending != 0 && Served(m, v) && InOrder(Service(Enabled(m)).m)
    ensures InOrder(m)
  {
    hide Service, Programmed, Increasing;
    var s := Service(Enabled(m));
    var rest := ServeAll(s.m);
    SameFlash(s.m, m);
    if Programmed(m, v) {
      assert ServeAll(m) == [v] + rest;
      IncreasingFromLeast(v, rest);
    } else {
      assert ServeAll(m) == rest;
    }
  }

  /**
   Repeated service dispatches exactly the pending vectors whose entry is programmed, in strictly
   increasing order and so each once, and needs one call per pending vector.
   */
  lemma {:induction false} ServedInPriorityOrder(m: State)
    ensures Increasing(ServeAll(m))
    ensures forall v: Vector :: v in ServeAll(m) <==> v in Vectors(m.pending) && Programmed(m, v)
    ensures CallsUntilIdle(m) == |Vectors(m.pending)|
    decreases |Vectors(m.pending)|
  {
    hide Service, Programmed;
    EmptyMask(m.pending);
    if m.pending != 0 {
      var v := ServeOne(m);
      ServiceShrinks(Enabled(m));
      ServedInPriorityOrder(Service(Enabled(m)).m);
      OneRound(m, v);
    }
  }

  // ------------------------------------------------------------------ a stack fault during dispatch

  /** Both bytes of a word fit between the bottom of the stack and the end of the data space. */
  predicate RoomForWord(sp: Word) {
    STACK_BOTTOM < sp <= DATA_SPACE_END
  }

  lemma PushByteFaults(m: State, v: Byte)
    ensures PushByte(m, v).fault <==> m.fault || !(STACK_BOTTOM <= m.sp <= DATA_SPACE_END)
    ensures STACK_BOTTOM <= m.sp <= DATA_SPACE_END ==> PushByte(m, v).sp == m.sp - 1
    ensures !(STACK_BOTTOM <= m.sp <= DATA_SPACE_END) ==> PushByte(m, v).sp == m.sp
  {
  }

  lemma PushWordFaults(m: State, w: Word)
    ensures PushWord(m, w).fault <==> m.fault || !RoomForWord(m.sp)
  {
    hide PushByte;
    PushByteFaults(m, Lo(w));
    PushByteFaults(PushByte(m, Lo(w)), Hi(w));
  }

  /** Pending fault flags are cleared before an instruction executes. */
  lemma InstructionForgetsFault(m: State, fault: bool)
    requires Fetch(m).Some?
    ensures Instruction(m.(fault := fault)) == Instruction(m)
  {
    hide Execute, Fetch, Advance;
    FetchIgnoresFault(m, fault);
  }

  /** Fetching looks at flash and pc only. */
  lemma FetchReadsFlash(a: State, b: State)
    requires a.flash == b.flash && a.pc == b.pc && Fetch(a).Some?
    ensures
      && Fetch(b).Some?
      && var f, g := Fetch(a).value, Fetch(b).value;
      g.ins == f.ins && g.cycles == f.cycles && g.m.pc == f.m.pc
  {
    hide Lookup, Operands;
  }

  lemma FetchIgnoresFault(m: State, fault: bool)
    requires Fetch(m).Some?
    ensures
      var f := Fetch(m).value;
      Fetch(m.(fault := fault)) == Some(Fetched(f.m.(fault := fault), f.ins, f.cycles))
  {
    hide Fetch;
    var m' := m.(fault := fault);
    FetchReadsFlash(m, m');
    FetchTouchesPcOnly(m);
    FetchTouchesPcOnly(m');
  }

  /**
   Dispatching without room for the return address raises the fault flag, exactly then, but the loop
   goes on: the flag is not looked at after a dispatch, and the next instruction clears it.
   */
  lemma DispatchFaultIsLost(m: State)
    requires Dispatched(m).Some? && !m.fault
    ensures Step(m).Running?
    ensures Step(m).m.fault <==> !RoomForWord(m.sp)
    ensures Fetch(Step(m).m).Some? ==> Instruction(Step(m).m) == Instruction(Step(m).m.(fault := false))
  {
    hide Fetch, Instruction, TimerRequests, PushWord, TimerZero.Ack;
    var ready := BeforeService(m);
    var v := Dispatched(m).value;
    assert ready.sp == m.sp && !ready.fault;
    PushWordFaults(ready.(pending := Clear(ready.pending, v)), ready.pc);
    if Fetch(Step(m).m).Some? {
      InstructionForgetsFault(Step(m).m, false);
    }
  }

  /** A machine with SP at 0x0100 and a Timer0 overflow interrupt waiting. */
  function NoRoom(): State {
    Blank().(sp := STACK_BOTTOM, sreg := ByteSreg(0).(i := true), pending := Raise(0, TIMER0_OVF))
  }

  lemma OnlyOverflowPending()
    ensures HighestPending(Raise(0, TIMER0_OVF)) == TIMER0_OVF
  {
    EmptyMask(0);
    MaskRefinesSet(0, TIMER0_OVF);
    HighestIsMinimum(Raise(0, TIMER0_OVF));
  }

  /** It dispatches the interrupt, faults, and runs on. */
  lemma DispatchWithoutRoom()
    ensures Dispatched(NoRoom()) == Some(TIMER0_OVF) && !NoRoom().fault
    ensures Step(NoRoom()).Running? && Step(NoRoom()).m.fault && Step(NoRoom()).m.pc == 0x40
  {
    hide PushWord, TimerZero.Ack, Instruction, Raise, HighestPending;
    var m := NoRoom();
    OnlyOverflowPending();
    assert !Bit(0, TimerZero.TOV0) && !Bit(0, TimerZero.OCF0A) && !Bit(0, TimerZero.OCF0B) by {
      BitOfZero(TimerZero.TOV0);
      BitOfZero(TimerZero.OCF0A);
      BitOfZero(TimerZero.OCF0B);
    }
    assert TimerRequests(m.timer) == [];
    assert BeforeService(m) == m.(nextPoll := POLL_INTERVAL);
    assert FlashWord(m, 0x40) == 0;
    DispatchFaultIsLost(m);
  }
}
