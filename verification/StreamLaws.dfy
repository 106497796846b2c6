/** The UART streams over whole runs: nothing is lost from the middle, duplicated or reordered. */
module StreamLaws {
  import opened Bits
  import opened Interrupts
  import opened Machine
  import opened Frames
  import opened Runs
  import opened Uart
  import TimerZero

  function Concat(inputs: seq<seq<Byte>>): seq<Byte> {
    if inputs == [] then [] else inputs[0] + Concat(inputs[1..])
  }

  lemma ServiceFlows(m: Machine.State)
    ensures Flows(m.uart, Service(m).m.uart)
  {
    hide PushWord, Flows;
    SameFlows(m.uart, m.uart);
    match Selected(m)
    case None =>
    case Some(v) => PushWordQuiet(m.(pending := Clear(m.pending, v)), m.pc);
  }

  lemma InstructionFlows(m: Machine.State)
    requires Instruction(m).Running?
    ensures Flows(m.uart, Instruction(m).m.uart)
  {
    hide Fetch, Execute, Flows;
    InstructionFetches(m);
    FetchTouchesPcOnly(m);
    var f := Fetch(m).value;
    ExecuteQuiet(f.m.(fault := false, extra := 0), f.ins);
  }

  lemma StepFlows(m: Machine.State)
    requires Step(m).Running?
    ensures Flows(m.uart, Step(m).m.uart)
  {
    hide Service, Instruction, Flows, TimerZero.Ack, Uart.Poll;
    var ready := BeforeService(m);
    PollFlows(m.uart);
    SameFlows(m.uart, m.uart);
    assert Flows(m.uart, ready.uart);
    ServiceFlows(ready);
    var s := Service(ready);
    FlowsTransitive(m.uart, ready.uart, s.m.uart);
    if s.vector.None? {
      InstructionFlows(s.m);
      FlowsTransitive(m.uart, s.m.uart, Step(m).m.uart);
    }
  }

  lemma {:induction false} InjectAppends(m: Machine.State, bytes: seq<Byte>)
    ensures Buffered(InjectAll(m, bytes).uart) == Buffered(m.uart) + bytes
    ensures InjectAll(m, bytes).uart.tx == m.uart.tx
    decreases |bytes|
  {
    if bytes != [] {
      var m' := m.(uart := Uart.Inject(m.uart, bytes[0]));
      assert Buffered(m'.uart) == Buffered(m.uart) + [bytes[0]];
      InjectAppends(m', bytes[1..]);
      assert bytes == [bytes[0]] + bytes[1..];
    }
  }

  lemma SuffixThenMore(s: seq<Byte>, t: seq<Byte>, more: seq<Byte>)
    requires IsSuffix(s, t)
    ensures IsSuffix(s + more, t + more)
  {
  }

  lemma SuffixTransitive(s: seq<Byte>, t: seq<Byte>, u: seq<Byte>)
    requires IsSuffix(s, t) && IsSuffix(t, u)
    ensures IsSuffix(s, u)
  {
  }

  /**
   Over any run, what is still buffered for firmware is the tail of what was buffered at the start
   followed by everything injected, so firmware consumed exactly the front of it, in order; and the
   transmit buffer only grows at its end.
   */
  lemma {:induction false} RunKeepsStreams(m: Machine.State, inputs: seq<seq<Byte>>)
    requires Run(m, inputs).Running?
    ensures IsSuffix(Buffered(Run(m, inputs).m.uart), Buffered(m.uart) + Concat(inputs))
    ensures m.uart.tx <= Run(m, inputs).m.uart.tx
    decreases |inputs|
  {
    hide Step, InjectAll, IsSuffix, Buffered;
    if inputs == [] {
      WholeIsSuffix(Buffered(m.uart));
    } else {
      var start := InjectAll(m, inputs[0]);
      InjectAppends(m, inputs[0]);
      StepFlows(start);
      var next := Step(start).m;
      RunKeepsStreams(next, inputs[1..]);
      SuffixThenMore(Buffered(next.uart), Buffered(start.uart), Concat(inputs[1..]));
      SuffixTransitive(Buffered(Run(m, inputs).m.uart), Buffered(next.uart) + Concat(inputs[1..]),
                       Buffered(start.uart) + Concat(inputs[1..]));
      assert (Buffered(m.uart) + inputs[0]) + Concat(inputs[1..]) == Buffered(m.uart) + Concat(inputs);
    }
  }

  lemma WholeIsSuffix(s: seq<Byte>)
    ensures IsSuffix(s, s + [])
  {
    assert s + [] == s;
  }
}
