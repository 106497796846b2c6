/** Timer ticks over whole runs: their total number, and the flags that they leave. */
module TickRuns {
  import opened Bits
  import opened Machine
  import Frames
  import opened Runs
  import TimerLaws
  import TimerZero

  /** The cycles that the iteration hands to Timer0. */
  function CyclesGiven(m: State): nat
    requires BeforeTick(m).Some?
  {
    Fetch(Service(BeforeService(m)).m).value.cycles + BeforeTick(m).value.extra
  }

  /** How often the drain loop goes round. */
  function DrainRounds(t: TimerZero.Timer, cycles: nat): nat {
    var div := TimerZero.Divider(t.tccr0b);
    if div == 0 then 0 else Wrap16(t.acc + cycles) / div
  }

  /** How often the drain loop of this iteration goes round. */
  function TicksIn(m: State): nat {
    if BeforeTick(m).Some? && Step(m).Running? then DrainRounds(BeforeTick(m).value.timer, CyclesGiven(m)) else 0
  }

  /** Timer ticks of the whole run. */
  function TicksOver(m: State, inputs: seq<seq<Byte>>): nat
    decreases |inputs|
  {
    if inputs == [] then 0
    else
      var start := InjectAll(m, inputs[0]);
      TicksIn(start) + if Step(start).Running? then TicksOver(Step(start).m, inputs[1..]) else 0
  }

  /** What an iteration does to time: nothing at a dispatch, a Tick at an instruction. */
  lemma StepTicks(m: State)
    requires Step(m).Running? && m.timer.acc < 1024
    ensures BeforeTick(m).None? ==> Step(m).m.cycles == m.cycles && TicksIn(m) == 0
    ensures
      BeforeTick(m).Some? ==>
        && 0 < CyclesGiven(m) < 1024 && Step(m).m.cycles == m.cycles + CyclesGiven(m)
        && Step(m).m.timer == TimerZero.Ticked(BeforeTick(m).value.timer, CyclesGiven(m))
  {
    hide Service, Fetch, Execute, Acknowledge, TimerZero.Ticked;
    var ready := BeforeService(m);
    PollQuiet(m);
    ServiceQuiet(ready);
    var s := Service(ready);
    if s.vector.None? {
      InstructionFetches(s.m);
      FetchTouchesPcOnly(s.m);
      var f := Fetch(s.m).value;
      Frames.ExecuteQuiet(f.m.(fault := false, extra := 0), f.ins);
    }
  }

  /** The ticks that `elapsed` cycles make when they come through at least one instruction, or none. */
  function TicksDue(t: TimerZero.Timer, elapsed: nat): nat
    requires TimerZero.Divider(t.tccr0b) != 0
  {
    if elapsed == 0 then 0 else (t.acc + elapsed) / TimerZero.Divider(t.tccr0b)
  }

  lemma StepTicksDue(m: State)
    requires Step(m).Running? && LeavesTimerAlone(m) && m.timer.acc < 1024
    requires TimerZero.Divider(m.timer.tccr0b) != 0
    ensures
      var m', div := Step(m).m, TimerZero.Divider(m.timer.tccr0b);
      && m'.cycles >= m.cycles && TicksIn(m) == TicksDue(m.timer, m'.cycles - m.cycles)
      && m'.timer.tccr0b == m.timer.tccr0b
      && m'.timer.acc == (if m'.cycles == m.cycles then m.timer.acc else (m.timer.acc + m'.cycles - m.cycles) % div)
  {
    hide Step, BeforeTick, TimerZero.Divider, TimerZero.CountAfter, TimerZero.FlagsAfter, CyclesGiven;
    StepTicks(m);
    if BeforeTick(m).Some? {
      assert Wrap16(m.timer.acc + CyclesGiven(m)) == m.timer.acc + CyclesGiven(m);
    }
  }

  lemma DueAdds(acc: nat, n: nat, k: nat, div: nat)
    requires div > 0 && n > 0
    ensures
      (acc + n) / div + (if k == 0 then 0 else ((acc + n) % div + k) / div) == (acc + n + k) / div
    ensures (if k == 0 then (acc + n) % div else ((acc + n) % div + k) % div) == (acc + n + k) % div
  {
    if k > 0 {
      TimerLaws.SplitTicks(acc, n, k, div);
    }
  }

  /**
   Over any run that leaves Timer0's counting registers alone, the total number of timer ticks is
   exactly (acc + elapsed cycles) div divider, and the remainder is left in the prescaler, however the
   cycles were batched. A run in which no time passes makes no tick.
   */
  lemma {:induction false} RunTicks(m: State, inputs: seq<seq<Byte>>)
    requires Run(m, inputs).Running? && AlwaysLeavesTimerAlone(m, inputs) && m.timer.acc < 1024
    requires TimerZero.Divider(m.timer.tccr0b) != 0
    ensures
      var end, div := Run(m, inputs).m, TimerZero.Divider(m.timer.tccr0b);
      && end.cycles >= m.cycles && TicksOver(m, inputs) == TicksDue(m.timer, end.cycles - m.cycles)
      && (m.timer.acc < div || end.cycles > m.cycles ==>
            && TicksOver(m, inputs) == (m.timer.acc + end.cycles - m.cycles) / div
            && end.timer.acc == (m.timer.acc + end.cycles - m.cycles) % div)
    decreases |inputs|
  {
    hide Step, LeavesTimerAlone, TicksIn, TimerZero.Divider;
    var div := TimerZero.Divider(m.timer.tccr0b);
    if m.timer.acc < div {
      ModUnique(m.timer.acc, div, 0, m.timer.acc);
    }
    if inputs != [] {
      var start := InjectAll(m, inputs[0]);
      InjectTouchesUartOnly(m, inputs[0]);
      StepTicksDue(start);
      StepKeepsAccSmall(start);
      var next := Step(start).m;
      RunTicks(next, inputs[1..]);
      if next.cycles > m.cycles {
        var n := next.cycles - m.cycles;
        TimerLaws.RemainderBelow(m.timer.acc + n, div);
        DueAdds(m.timer.acc, n, Run(m, inputs).m.cycles - next.cycles, div);
      }
    }
  }

  // ------------------------------------------------------------------ flags

  /** Only the interrupt enables may differ. */
  predicate SameButMask(a: TimerZero.Timer, b: TimerZero.Timer) {
    b == a.(timsk0 := b.timsk0)
  }

  /** The iteration writes no Timer0 register but TIMSK0 and acknowledges no Timer0 flag. */
  predicate LeavesFlagsAlone(m: State) {
    if BeforeTick(m).Some? then SameButMask(m.timer, BeforeTick(m).value.timer)
    else Step(m).Running? ==> SameButMask(m.timer, Step(m).m.timer)
  }

  predicate AlwaysLeavesFlagsAlone(m: State, inputs: seq<seq<Byte>>)
    decreases |inputs|
  {
    inputs != [] ==>
      var start := InjectAll(m, inputs[0]);
      && LeavesFlagsAlone(start)
      && (Step(start).Running? ==> AlwaysLeavesFlagsAlone(Step(start).m, inputs[1..]))
  }

  /** The closed form does not look at TIMSK0. */
  lemma MaskIsIrrelevant(t: TimerZero.Timer, t': TimerZero.Timer, n: nat, acc: Word)
    requires SameButMask(t, t')
    ensures SameButMask(TimerZero.AfterTicks(t, n, acc), TimerZero.AfterTicks(t', n, acc))
  {
    assert forall k: nat :: TimerZero.CountAfter(t', k) == TimerZero.CountAfter(t, k);
    assert TimerZero.MatchesWithin(t', n, t.ocr0a) == TimerZero.MatchesWithin(t, n, t.ocr0a);
    assert TimerZero.MatchesWithin(t', n, t.ocr0b) == TimerZero.MatchesWithin(t, n, t.ocr0b);
  }

  lemma StepFlags(m: State)
    requires Step(m).Running? && LeavesFlagsAlone(m) && m.timer.acc < 1024
    requires TimerZero.Divider(m.timer.tccr0b) != 0
    ensures SameButMask(TimerZero.AfterTicks(m.timer, TicksIn(m), Step(m).m.timer.acc), Step(m).m.timer)
  {
    hide Step, BeforeTick, TimerZero.Divider, TimerZero.AfterTicks, CyclesGiven, SameButMask;
    StepTicks(m);
    if BeforeTick(m).Some? {
      var t := BeforeTick(m).value.timer;
      MaskFacts(m.timer, t);
      assert Wrap16(t.acc + CyclesGiven(m)) == t.acc + CyclesGiven(m);
      AfterTicksAcc(t, TicksIn(m), Step(m).m.timer.acc);
      TickIsAfter(t, CyclesGiven(m));
      MaskIsIrrelevant(m.timer, t, TicksIn(m), Step(m).m.timer.acc);
    } else {
      MaskFacts(m.timer, Step(m).m.timer);
      TimerZero.NoTicksYet(m.timer, m.timer.acc);
    }
  }

  lemma MaskFacts(a: TimerZero.Timer, b: TimerZero.Timer)
    requires SameButMask(a, b)
    ensures b.acc == a.acc && b.tccr0b == a.tccr0b && SameCounting(b, a)
    ensures a.(acc := a.acc) == a
  {
  }

  lemma AfterTicksAcc(t: TimerZero.Timer, n: nat, acc: Word)
    ensures TimerZero.AfterTicks(t, n, acc).acc == acc
  {
  }

  lemma TickIsAfter(t: TimerZero.Timer, cycles: Word)
    requires TimerZero.Divider(t.tccr0b) != 0
    ensures
      TimerZero.Ticked(t, cycles) ==
      TimerZero.AfterTicks(t, Wrap16(t.acc + cycles) / TimerZero.Divider(t.tccr0b), TimerZero.Ticked(t, cycles).acc)
  {
    hide TimerZero.CountAfter, TimerZero.FlagsAfter;
  }

  lemma FlagsImplyCounting(m: State)
    requires LeavesFlagsAlone(m)
    ensures LeavesTimerAlone(m)
  {
    hide Step, BeforeTick;
  }

  lemma {:induction false} FlagsImplyCountingAlways(m: State, inputs: seq<seq<Byte>>)
    requires AlwaysLeavesFlagsAlone(m, inputs)
    ensures AlwaysLeavesTimerAlone(m, inputs)
    decreases |inputs|
  {
    hide Step, LeavesFlagsAlone, LeavesTimerAlone;
    if inputs != [] {
      var start := InjectAll(m, inputs[0]);
      FlagsImplyCounting(start);
      if Step(start).Running? {
        FlagsImplyCountingAlways(Step(start).m, inputs[1..]);
      }
    }
  }

  /**
   Over any run that writes no Timer0 register but TIMSK0 and acknowledges no flag, the whole timer at
   the end, TIFR0 included, is the closed form for the total number of ticks.
   */
  lemma {:induction false} RunFlags(m: State, inputs: seq<seq<Byte>>)
    requires Run(m, inputs).Running? && AlwaysLeavesFlagsAlone(m, inputs) && m.timer.acc < 1024
    requires TimerZero.Divider(m.timer.tccr0b) != 0
    ensures
      var end := Run(m, inputs).m.timer;
      && SameButMask(TimerZero.AfterTicks(m.timer, TicksOver(m, inputs), end.acc), end)
      && end.tifr0 == TimerZero.FlagsAfter(m.timer, TicksOver(m, inputs))
      && end.tcnt0 == TimerZero.CountAfter(m.timer, TicksOver(m, inputs))
    decreases |inputs|
  {
    hide Step, LeavesFlagsAlone, TicksIn, TimerZero.Divider, TimerZero.FlagsAfter, TimerZero.CountAfter;
    if inputs == [] {
      TimerZero.NoTicksYet(m.timer, m.timer.acc);
    } else {
      var start := InjectAll(m, inputs[0]);
      InjectTouchesUartOnly(m, inputs[0]);
      StepFlags(start);
      StepKeepsAccSmall(start);
      var next, end := Step(start).m.timer, Run(m, inputs).m.timer;
      RunFlags(Step(start).m, inputs[1..]);
      var k := TicksOver(Step(start).m, inputs[1..]);
      var ideal := TimerZero.AfterTicks(m.timer, TicksIn(start), next.acc);
      MaskIsIrrelevant(ideal, next, k, end.acc);
      TimerLaws.TicksCompose(m.timer, TicksIn(start), next.acc, k, end.acc);
    }
  }
}
