/**
 Straight-line firmware with multi-byte arithmetic: chains of CP/CPC, ADD/ADC and SUB/SBC with any
 other instructions between the links that leave SREG alone, such as the loads and stores that bring
 in operands of any length.
 */
module ChainPrograms {
  import opened Bits
  import opened Alu
  import opened AluChains
  import opened Decoder
  import opened Machine

  function ExecuteAll(m: State, prog: seq<Ins>): State
    decreases |prog|
  {
    if prog == [] then m else ExecuteAll(Execute(m, prog[0]), prog[1..])
  }

  datatype Family = Compare | Plus | Minus

  /** The instruction of a link: the carry-less form first, then the form with carry. */
  function Link(family: Family, first: bool, d: Reg, r: Reg): Ins {
    match family
    case Compare => Ins.Arithmetic(if first then Cp(d, r) else Cpc(d, r))
    case Plus => Ins.Arithmetic(if first then Add(d, r) else Adc(d, r))
    case Minus => Ins.Arithmetic(if first then Sub(d, r) else Sbc(d, r))
  }

  /** What happens between two links: the bytes of the operands met so far are xs and ys. */
  datatype Event = Linked(d: Reg, r: Reg) | Silent(ins: Ins)

  /** The program with its links, of which `linked` says whether one has been passed. */
  function Code(family: Family, first: bool, events: seq<Event>): seq<Ins>
    decreases |events|
  {
    if events == [] then []
    else
      match events[0]
      case Linked(d, r) => [Link(family, first, d, r)] + Code(family, false, events[1..])
      case Silent(ins) => [ins] + Code(family, first, events[1..])
  }

  function AfterEvent(m: State, family: Family, first: bool, e: Event): State {
    match e
    case Linked(d, r) => Execute(m, Link(family, first, d, r))
    case Silent(ins) => Execute(m, ins)
  }

  /** Operand and result bytes that a program meets, link by link; silent instructions keep SREG. */
  datatype Meeting = Meeting(xs: seq<Byte>, ys: seq<Byte>, zs: seq<Byte>)

  ghost predicate KeepsSreg(m: State, family: Family, first: bool, events: seq<Event>)
    decreases |events|
  {
    events != [] ==>
      && (events[0].Silent? ==> Execute(m, events[0].ins).sreg == m.sreg)
      && KeepsSreg(AfterEvent(m, family, first, events[0]), family, first && events[0].Silent?, events[1..])
  }

  function Met(m: State, family: Family, first: bool, events: seq<Event>): (t: Meeting)
    ensures |t.xs| == |t.ys| == |t.zs|
    decreases |events|
  {
    if events == [] then Meeting([], [], [])
    else
      var m' := AfterEvent(m, family, first, events[0]);
      var rest := Met(m', family, first && events[0].Silent?, events[1..]);
      match events[0]
      case Linked(d, r) => Meeting([m.r[d]] + rest.xs, [m.r[r]] + rest.ys, [m'.r[d]] + rest.zs)
      case Silent(_) => rest
  }

  lemma CodeUnfolds(m: State, family: Family, first: bool, events: seq<Event>)
    requires events != []
    ensures
      ExecuteAll(m, Code(family, first, events))
        == ExecuteAll(AfterEvent(m, family, first, events[0]), Code(family, first && events[0].Silent?, events[1..]))
  {
    var code := Code(family, first, events);
    assert code[1..] == Code(family, first && events[0].Silent?, events[1..]);
  }

  /** The chain function that a family computes from its second link on. */
  function CarryChain(family: Family, xs: seq<Byte>, ys: seq<Byte>, f: Sreg): Chain
    requires |xs| == |ys|
  {
    if family.Plus? then AdcChain(xs, ys, f) else SbcChain(xs, ys, f)
  }

  lemma LinkEffect(m: State, family: Family, first: bool, d: Reg, r: Reg)
    ensures
      var m' := Execute(m, Link(family, first, d, r));
      var f := if first then m.sreg.(c := false, z := true) else m.sreg;
      var o := if family.Plus? then Alu.Adc(m.r[d], m.r[r], f) else Alu.Sbc(m.r[d], m.r[r], f);
      m'.sreg == o.sreg && (!family.Compare? ==> m'.r[d] == o.value)
  {
    var f := m.sreg.(c := false, z := true);
    assert Alu.Add(m.r[d], m.r[r], m.sreg) == Alu.Adc(m.r[d], m.r[r], f);
    assert Alu.Sub(m.r[d], m.r[r], m.sreg) == Alu.Sbc(m.r[d], m.r[r], f);
  }

  lemma {:induction false} ProgramRunsChain(m: State, family: Family, first: bool, events: seq<Event>)
    requires KeepsSreg(m, family, first, events)
    ensures
      var t := Met(m, family, first, events);
      var r := CarryChain(family, t.xs, t.ys, if first && t.xs != [] then m.sreg.(c := false, z := true) else m.sreg);
      && ExecuteAll(m, Code(family, first, events)).sreg == r.sreg
      && (!family.Compare? ==> t.zs == r.bytes)
    decreases |events|
  {
    hide Execute, Link, Alu.Adc, Alu.Sbc;
    if events != [] {
      CodeUnfolds(m, family, first, events);
      ProgramRunsChain(AfterEvent(m, family, first, events[0]), family, first && events[0].Silent?, events[1..]);
      match events[0]
      case Silent(_) =>
      case Linked(d, r) =>
        LinkEffect(m, family, first, d, r);
        var rest := Met(AfterEvent(m, family, first, events[0]), family, false, events[1..]);
        assert ([m.r[d]] + rest.xs)[1..] == rest.xs && ([m.r[r]] + rest.ys)[1..] == rest.ys;
    }
  }

  /**
   AfterEvent any program that compares two numbers byte by byte, BRLO and BRSH, BRLT and BRGE, BREQ and
   BRNE branch exactly on the unsigned order, the signed order and equality of the numbers.
   */
  lemma ComparisonDecidesBranches(m: State, events: seq<Event>, off: int)
    requires KeepsSreg(m, Compare, true, events) && Met(m, Compare, true, events).xs != []
    ensures
      var t := Met(m, Compare, true, events);
      var end := ExecuteAll(m, Code(Compare, true, events));
      var less, below, same := SVal(t.xs) < SVal(t.ys), Val(t.xs) < Val(t.ys), t.xs == t.ys;
      && ExecuteFlow(end, Brbs(off, C_BIT)) == Branch(end, below, off)
      && ExecuteFlow(end, Brbc(off, C_BIT)) == Branch(end, !below, off)
      && ExecuteFlow(end, Brbs(off, S_BIT)) == Branch(end, less, off)
      && ExecuteFlow(end, Brbc(off, S_BIT)) == Branch(end, !less, off)
      && ExecuteFlow(end, Brbs(off, Z_BIT)) == Branch(end, same, off)
      && ExecuteFlow(end, Brbc(off, Z_BIT)) == Branch(end, !same, off)
  {
    hide KeepsSreg, Met, Code, ExecuteAll;
    var t := Met(m, Compare, true, events);
    ProgramRunsChain(m, Compare, true, events);
    SubIsSbc(t.xs, t.ys, m.sreg);
    CpcIsSbcFlags(t.xs[1..], t.ys[1..], Alu.Sub(t.xs[0], t.ys[0], m.sreg).sreg);
    CompareChainDecides(t.xs, t.ys, m.sreg);
  }

  /** An addition program leaves the exact n-byte sum in the destinations and its facts in SREG. */
  lemma AdditionIsExact(m: State, events: seq<Event>)
    requires KeepsSreg(m, Plus, true, events) && Met(m, Plus, true, events).xs != []
    ensures
      var t := Met(m, Plus, true, events);
      IsSum(t.xs, t.ys, m.sreg, Chain(t.zs, ExecuteAll(m, Code(Plus, true, events)).sreg))
  {
    hide KeepsSreg, Met, Code, ExecuteAll, IsSum;
    var t := Met(m, Plus, true, events);
    ProgramRunsChain(m, Plus, true, events);
    AddIsAdc(t.xs, t.ys, m.sreg);
    AddChainExact(t.xs, t.ys, m.sreg);
  }

  /** A subtraction program leaves the exact n-byte difference and its facts. */
  lemma SubtractionIsExact(m: State, events: seq<Event>)
    requires KeepsSreg(m, Minus, true, events) && Met(m, Minus, true, events).xs != []
    ensures
      var t := Met(m, Minus, true, events);
      IsDifference(t.xs, t.ys, m.sreg, Chain(t.zs, ExecuteAll(m, Code(Minus, true, events)).sreg))
  {
    hide KeepsSreg, Met, Code, ExecuteAll, IsDifference;
    var t := Met(m, Minus, true, events);
    ProgramRunsChain(m, Minus, true, events);
    SubIsSbc(t.xs, t.ys, m.sreg);
    SubChainExact(t.xs, t.ys, m.sreg);
  }

  /** Loads, register moves, LPM and POP are silent: they never touch SREG. */
  lemma TransfersAreSilent(m: State, ins: Ins)
    requires
      match ins
      case Data(t) => t.Ld? || t.Ldd? || t.Lds? || t.Lpm? || t.In? || t.Pop?
      case Logic(l) => l.Mov? || l.Movw? || l.Ldi? || l.Swap? || l.Ser?
      case _ => false
    ensures Execute(m, ins).sreg == m.sreg
  {
    match ins
    case Data(t) => LoadsKeepSreg(m, t);
    case Logic(_) =>
  }

  lemma LoadsKeepSreg(m: State, t: DataIns)
    requires t.Ld? || t.Ldd? || t.Lds? || t.Lpm? || t.In? || t.Pop?
    ensures ExecuteData(m, t).sreg == m.sreg
  {
    hide Machine.Load, LoadIndirect, PopByte;
    match t
    case Ld(x, d, mode) => IndirectLoadKeepsSreg(m, x, d, mode);
    case Ldd(x, d, q) => LoadKeepsSreg(m, d, Wrap16(PairValue(m, x) + q));
    case Lds(d, addr) => LoadKeepsSreg(m, d, addr);
    case In(d, a) => LoadKeepsSreg(m, d, a + 0x20);
    case Pop(_) => PopKeepsSreg(m);
    case Lpm(_, _) =>
  }

  lemma LoadKeepsSreg(m: State, d: Reg, addr: Word)
    ensures Machine.Load(m, d, addr).sreg == m.sreg
  {
  }

  lemma IndirectLoadKeepsSreg(m: State, x: Pointer, d: Reg, mode: nat)
    ensures LoadIndirect(m, x, d, mode).sreg == m.sreg
  {
    hide Machine.Load;
    var p: int := PairValue(m, x);
    LoadKeepsSreg(m, d, p);
    LoadKeepsSreg(PutPair(m, x, Wrap16(p - 1)), d, Wrap16(p - 1));
  }

  lemma PopKeepsSreg(m: State)
    ensures PopByte(m).m.sreg == m.sreg
  {
  }
}
