/**
 The table read in order means exactly what the opcode map says, and the order matters only for POP
 against LD X and for PUSH against ST X.
 */
module DecoderLaws {
  import opened Bits
  import opened OpcodeTable
  import opened Decoder
  import opened OpcodeMap
  import DecoderRows
  import opened Machine

  // ------------------------------------------------------------------ first match is never shadowed

  lemma {:induction false} FirstMatchConcat(a: seq<Row>, b: seq<Row>, w: Code)
    ensures FirstMatch(a + b, w) == if FirstMatch(a, w).Some? then FirstMatch(a, w) else FirstMatch(b, w)
  {
    if a == [] {
      assert a + b == b;
    } else {
      assert (a + b)[1..] == a[1..] + b;
      FirstMatchConcat(a[1..], b, w);
    }
  }

  // ------------------------------------------------------------------ words and cycles per operation

  function WordsOf(op: Op): Words {
    match op
    case Mem(m) => if m.LDS? || m.STS? then 2 else 1
    case Control(k) => if k.JMP? || k.CALL? then 2 else 1
    case _ => 1
  }

  /** Minimum cycle counts; a taken branch or skip adds one. */
  function CyclesOf(op: Op): Cycles {
    match op
    case Arith(a) =>
      if a.ADIW? || a.SBIW? || a.MUL? || a.MULS? || a.MULSU? || a.FMUL? || a.FMULS? || a.FMULSU? then 2 else 1
    case Mem(m) => if m.LPM? then 3 else if m.IN? || m.OUT? || m.SPM_E? then 1 else 2
    case Control(k) =>
      if k.CALL? || k.RET? || k.RETI? then 4
      else if k.JMP? || k.RCALL? || k.ICALL? then 3
      else if k.RJMP? || k.IJMP? then 2
      else 1
    case _ => 1
  }

  lemma AliasesCostTheSame(op: Op)
    ensures WordsOf(op) == WordsOf(Canonical(op)) && CyclesOf(op) == CyclesOf(Canonical(op))
  {
  }

  /** Facts of a row that do not depend on the word: its size, its time and a few patterns. */
  ghost predicate RowFacts(row: Row) {
    && row.words == WordsOf(row.op) && row.cycles == CyclesOf(row.op)
    && (row.op == Mem(LD_X) ==> row.mask == 0xFE0C && row.code == 0x900C && row.fmt == LdFamily)
    && (row.op == Mem(ST_X) ==> row.mask == 0xFE0C && row.code == 0x920C && row.fmt == LdFamily)
    && (row.op == Bitwise(SER) ==> row.mask == 0xFF0F && row.code == 0xEF0F)
    && (IsBaseMode(row) ==> row.mask == 0xFE0F && row.code & 0x2C07 == 0
                            && (row.op == Mem(LD_Y) || row.op == Mem(LD_Z) || row.op == Mem(ST_Y) || row.op == Mem(ST_Z)))
  }

  lemma ArithmeticFacts(i: nat)
    requires i < 18
    ensures RowFacts(ARITHMETIC_ROWS[i])
  {
  }

  lemma LogicFacts(i: nat)
    requires i < 11
    ensures RowFacts(LOGIC_ROWS[i])
  {
  }

  lemma ShiftFacts(i: nat)
    requires i < 4
    ensures RowFacts(SHIFT_ROWS[i])
  {
  }

  lemma CompareFacts(i: nat)
    requires i < 5
    ensures RowFacts(COMPARE_ROWS[i])
  {
  }

  lemma MoveFacts(i: nat)
    requires i < 3
    ensures RowFacts(MOVE_ROWS[i])
  {
  }

  lemma PopFacts(i: nat)
    requires i < 1
    ensures RowFacts(POP_ROWS[i])
  {
  }

  lemma LoadFacts(i: nat)
    requires i < 15
    ensures RowFacts(LOAD_ROWS[i])
  {
  }

  lemma PushFacts(i: nat)
    requires i < 1
    ensures RowFacts(PUSH_ROWS[i])
  {
  }

  lemma StoreFacts(i: nat)
    requires i < 10
    ensures RowFacts(STORE_ROWS[i])
  {
  }

  lemma BranchFacts(i: nat)
    requires i < 20
    ensures RowFacts(BRANCH_ROWS[i])
  {
  }

  lemma JumpFacts(i: nat)
    requires i < 8
    ensures RowFacts(JUMP_ROWS[i])
  {
  }

  lemma SkipFacts(i: nat)
    requires i < 4
    ensures RowFacts(SKIP_ROWS[i])
  {
  }

  lemma FlagFacts(i: nat)
    requires i < 16
    ensures RowFacts(FLAG_ROWS[i])
  {
  }

  lemma BitFacts(i: nat)
    requires i < 6
    ensures RowFacts(BIT_ROWS[i])
  {
  }

  lemma ControlFacts(i: nat)
    requires i < 5
    ensures RowFacts(CONTROL_ROWS[i])
  {
  }

  lemma HeadFacts(row: Row)
    requires row in HEAD_ROWS
    ensures RowFacts(row)
  {
    hide RowFacts;
    if row in ARITHMETIC_ROWS { var i :| 0 <= i < 18 && ARITHMETIC_ROWS[i] == row; ArithmeticFacts(i); }
    else if row in LOGIC_ROWS { var i :| 0 <= i < 11 && LOGIC_ROWS[i] == row; LogicFacts(i); }
    else if row in SHIFT_ROWS { var i :| 0 <= i < 4 && SHIFT_ROWS[i] == row; ShiftFacts(i); }
    else if row in COMPARE_ROWS { var i :| 0 <= i < 5 && COMPARE_ROWS[i] == row; CompareFacts(i); }
    else if row in MOVE_ROWS { var i :| 0 <= i < 3 && MOVE_ROWS[i] == row; MoveFacts(i); }
    else if row in POP_ROWS { var i :| 0 <= i < 1 && POP_ROWS[i] == row; PopFacts(i); }
  }

  lemma MiddleFacts(row: Row)
    requires row in MIDDLE_ROWS
    ensures RowFacts(row)
  {
    hide RowFacts;
    if row in LOAD_ROWS { var i :| 0 <= i < 15 && LOAD_ROWS[i] == row; LoadFacts(i); }
    else if row in PUSH_ROWS { var i :| 0 <= i < 1 && PUSH_ROWS[i] == row; PushFacts(i); }
  }

  lemma TailFacts(row: Row)
    requires row in TAIL_ROWS
    ensures RowFacts(row)
  {
    hide RowFacts;
    if row in STORE_ROWS { var i :| 0 <= i < 10 && STORE_ROWS[i] == row; StoreFacts(i); }
    else if row in BRANCH_ROWS { var i :| 0 <= i < 20 && BRANCH_ROWS[i] == row; BranchFacts(i); }
    else if row in JUMP_ROWS { var i :| 0 <= i < 8 && JUMP_ROWS[i] == row; JumpFacts(i); }
    else if row in SKIP_ROWS { var i :| 0 <= i < 4 && SKIP_ROWS[i] == row; SkipFacts(i); }
    else if row in FLAG_ROWS { var i :| 0 <= i < 16 && FLAG_ROWS[i] == row; FlagFacts(i); }
    else if row in BIT_ROWS { var i :| 0 <= i < 6 && BIT_ROWS[i] == row; BitFacts(i); }
    else if row in CONTROL_ROWS { var i :| 0 <= i < 5 && CONTROL_ROWS[i] == row; ControlFacts(i); }
  }

  lemma TableFacts(row: Row)
    requires row in TABLE
    ensures RowFacts(row)
  {
    hide RowFacts;
    if row in HEAD_ROWS { HeadFacts(row); }
    else if row in MIDDLE_ROWS { MiddleFacts(row); }
    else { TailFacts(row); }
  }

  lemma ArithmeticNotX(i: nat)
    requires i < 18
    ensures ARITHMETIC_ROWS[i].op != Mem(LD_X) && ARITHMETIC_ROWS[i].op != Mem(ST_X)
  {
  }

  lemma LogicNotX(i: nat)
    requires i < 11
    ensures LOGIC_ROWS[i].op != Mem(LD_X) && LOGIC_ROWS[i].op != Mem(ST_X)
  {
  }

  lemma ShiftNotX(i: nat)
    requires i < 4
    ensures SHIFT_ROWS[i].op != Mem(LD_X) && SHIFT_ROWS[i].op != Mem(ST_X)
  {
  }

  lemma CompareNotX(i: nat)
    requires i < 5
    ensures COMPARE_ROWS[i].op != Mem(LD_X) && COMPARE_ROWS[i].op != Mem(ST_X)
  {
  }

  lemma MoveNotX(i: nat)
    requires i < 3
    ensures MOVE_ROWS[i].op != Mem(LD_X) && MOVE_ROWS[i].op != Mem(ST_X)
  {
  }

  lemma PopNotX(i: nat)
    requires i < 1
    ensures POP_ROWS[i].op != Mem(LD_X) && POP_ROWS[i].op != Mem(ST_X)
  {
  }

  lemma LoadNotX(i: nat)
    requires i < 15
    ensures LOAD_ROWS[i].op != Mem(ST_X)
  {
  }

  lemma PushNotX(i: nat)
    requires i < 1
    ensures PUSH_ROWS[i].op != Mem(ST_X)
  {
  }

  lemma HeadNotX(row: Row)
    requires row in HEAD_ROWS
    ensures row.op != Mem(LD_X) && row.op != Mem(ST_X)
  {
    if row in ARITHMETIC_ROWS { var i :| 0 <= i < 18 && ARITHMETIC_ROWS[i] == row; ArithmeticNotX(i); }
    else if row in LOGIC_ROWS { var i :| 0 <= i < 11 && LOGIC_ROWS[i] == row; LogicNotX(i); }
    else if row in SHIFT_ROWS { var i :| 0 <= i < 4 && SHIFT_ROWS[i] == row; ShiftNotX(i); }
    else if row in COMPARE_ROWS { var i :| 0 <= i < 5 && COMPARE_ROWS[i] == row; CompareNotX(i); }
    else if row in MOVE_ROWS { var i :| 0 <= i < 3 && MOVE_ROWS[i] == row; MoveNotX(i); }
    else if row in POP_ROWS { var i :| 0 <= i < 1 && POP_ROWS[i] == row; PopNotX(i); }
  }

  lemma MiddleNotX(row: Row)
    requires row in MIDDLE_ROWS
    ensures row.op != Mem(ST_X)
  {
    if row in LOAD_ROWS { var i :| 0 <= i < 15 && LOAD_ROWS[i] == row; LoadNotX(i); }
    else if row in PUSH_ROWS { var i :| 0 <= i < 1 && PUSH_ROWS[i] == row; PushNotX(i); }
  }

  // ------------------------------------------------------------------ the order of the table

  lemma SectionFirst(w: Code)
    ensures Lookup(w) == if FirstMatch(HEAD_ROWS, w).Some? then FirstMatch(HEAD_ROWS, w)
                         else if FirstMatch(MIDDLE_ROWS, w).Some? then FirstMatch(MIDDLE_ROWS, w)
                         else FirstMatch(TAIL_ROWS, w)
  {
    hide FirstMatch;
    FirstMatchConcat(HEAD_ROWS, MIDDLE_ROWS + TAIL_ROWS, w);
    FirstMatchConcat(MIDDLE_ROWS, TAIL_ROWS, w);
  }

  lemma PopPushShape()
    ensures POP_ROWS[0] == Row(0xFE0F, 0x900F, Mem(POP), RdOnly, 1, 2) && POP_ROWS[0] in HEAD_ROWS
    ensures PUSH_ROWS[0] == Row(0xFE0F, 0x920F, Mem(PUSH), RdOnly, 1, 2) && PUSH_ROWS[0] in MIDDLE_ROWS
  {
    assert POP_ROWS[0] in POP_ROWS && PUSH_ROWS[0] in PUSH_ROWS;
  }

  lemma ShadowedMatchesStack(row: Row, w: Code)
    requires RowFacts(row) && Matches(row, w) && Shadowed(row, w)
    ensures row.op == Mem(LD_X) ==> w & 0xFE0F == 0x900F
    ensures row.op == Mem(ST_X) ==> w & 0xFE0F == 0x920F
  {
  }

  /** POP stands before LD X and PUSH before ST X, so that the scan never answers with a shadowed row. */
  lemma LookupUnshadowed(w: Code)
    ensures Lookup(w).Some? ==> !Shadowed(Lookup(w).value, w)
  {
    hide Lookup, FirstMatch, RowFacts;
    SectionFirst(w);
    PopPushShape();
    if Lookup(w).Some? {
      var row := Lookup(w).value;
      FromTable(row, w);
      if Shadowed(row, w) {
        TableFacts(row);
        ShadowedMatchesStack(row, w);
        if row in HEAD_ROWS { HeadNotX(row); }
        if row in MIDDLE_ROWS { MiddleNotX(row); }
      }
    }
  }

  lemma FromTable(row: Row, w: Code)
    requires Lookup(w) == Some(row)
    ensures row in TABLE && Matches(row, w)
    ensures FirstMatch(HEAD_ROWS, w).Some? ==> row in HEAD_ROWS
    ensures FirstMatch(HEAD_ROWS, w).None? && FirstMatch(MIDDLE_ROWS, w).Some? ==> row in MIDDLE_ROWS
  {
    hide FirstMatch;
    SectionFirst(w);
  }

  // ------------------------------------------------------------------ no word is missed

  lemma ZeroGap(w: Code)
    requires w & 0xF000 == 0
    requires !Matches(ARITHMETIC_ROWS[1], w) && !Matches(ARITHMETIC_ROWS[7], w) && !Matches(ARITHMETIC_ROWS[8], w)
    requires !Matches(ARITHMETIC_ROWS[9], w) && !Matches(ARITHMETIC_ROWS[10], w) && !Matches(ARITHMETIC_ROWS[11], w)
    requires !Matches(ARITHMETIC_ROWS[14], w) && !Matches(COMPARE_ROWS[1], w) && !Matches(MOVE_ROWS[1], w)
    requires !Matches(CONTROL_ROWS[0], w)
    ensures KindOf(w) == None
  {
  }

  lemma RegisterFull(w: Code)
    requires w & 0xF000 == 0x1000 || w & 0xF000 == 0x2000
    ensures
      || Matches(ARITHMETIC_ROWS[0], w) || Matches(ARITHMETIC_ROWS[16], w) || Matches(COMPARE_ROWS[0], w)
      || Matches(COMPARE_ROWS[3], w) || Matches(LOGIC_ROWS[0], w) || Matches(LOGIC_ROWS[3], w)
      || Matches(LOGIC_ROWS[6], w) || Matches(MOVE_ROWS[0], w)
  {
  }

  lemma ImmediateFull(w: Code)
    requires 0x3000 <= w < 0x8000
    ensures
      || Matches(COMPARE_ROWS[2], w) || Matches(ARITHMETIC_ROWS[15], w) || Matches(ARITHMETIC_ROWS[17], w)
      || Matches(LOGIC_ROWS[7], w) || Matches(LOGIC_ROWS[1], w)
  {
  }

  lemma DisplacementFull(w: Code)
    requires w & 0xD000 == 0x8000
    ensures
      || Matches(LOAD_ROWS[1], w) || Matches(LOAD_ROWS[5], w) || Matches(STORE_ROWS[1], w)
      || Matches(STORE_ROWS[5], w)
  {
  }

  lemma LoadGap(w: Code)
    requires w & 0xFE00 == 0x9000
    requires !Matches(LOAD_ROWS[0], w) && !Matches(LOAD_ROWS[3], w) && !Matches(LOAD_ROWS[4], w)
    requires !Matches(LOAD_ROWS[7], w) && !Matches(LOAD_ROWS[8], w) && !Matches(LOAD_ROWS[9], w)
    requires !Matches(LOAD_ROWS[11], w) && !Matches(LOAD_ROWS[12], w)
    ensures KindOf(w) == None
  {
  }

  lemma StoreGap(w: Code)
    requires w & 0xFE00 == 0x9200
    requires !Matches(STORE_ROWS[0], w) && !Matches(STORE_ROWS[3], w) && !Matches(STORE_ROWS[4], w)
    requires !Matches(STORE_ROWS[7], w) && !Matches(STORE_ROWS[8], w) && !Matches(STORE_ROWS[9], w)
    ensures KindOf(w) == None
  {
  }

  lemma OneRegisterGap(w: Code)
    requires w & 0xFE00 == 0x9400
    requires !Matches(ARITHMETIC_ROWS[3], w) && !Matches(ARITHMETIC_ROWS[4], w) && !Matches(ARITHMETIC_ROWS[5], w)
    requires !Matches(ARITHMETIC_ROWS[12], w) && !Matches(LOGIC_ROWS[4], w) && !Matches(LOGIC_ROWS[10], w)
    requires !Matches(SHIFT_ROWS[1], w) && !Matches(SHIFT_ROWS[3], w) && !Matches(LOAD_ROWS[10], w)
    requires !Matches(JUMP_ROWS[1], w) && !Matches(JUMP_ROWS[2], w) && !Matches(JUMP_ROWS[4], w)
    requires !Matches(JUMP_ROWS[5], w) && !Matches(JUMP_ROWS[6], w) && !Matches(JUMP_ROWS[7], w)
    requires !Matches(BIT_ROWS[0], w) && !Matches(BIT_ROWS[1], w) && !Matches(CONTROL_ROWS[1], w)
    requires !Matches(CONTROL_ROWS[2], w) && !Matches(CONTROL_ROWS[3], w) && !Matches(CONTROL_ROWS[4], w)
    ensures KindOf(w) == None
  {
  }

  lemma WideFull(w: Code)
    requires 0x9600 <= w < 0xA000
    ensures
      || Matches(ARITHMETIC_ROWS[2], w) || Matches(ARITHMETIC_ROWS[6], w) || Matches(ARITHMETIC_ROWS[13], w)
      || Matches(SKIP_ROWS[0], w) || Matches(SKIP_ROWS[1], w) || Matches(BIT_ROWS[4], w)
      || Matches(BIT_ROWS[5], w)
  {
  }

  lemma InOutFull(w: Code)
    requires w & 0xF000 == 0xB000
    ensures
      || Matches(LOAD_ROWS[13], w) || Matches(LOAD_ROWS[14], w)
  {
  }

  lemma RelativeFull(w: Code)
    requires 0xC000 <= w < 0xF000
    ensures
      || Matches(JUMP_ROWS[0], w) || Matches(JUMP_ROWS[3], w) || Matches(MOVE_ROWS[2], w)
  {
  }

  lemma ConditionalGap(w: Code)
    requires w & 0xF000 == 0xF000
    requires !Matches(BRANCH_ROWS[0], w) && !Matches(BRANCH_ROWS[1], w) && !Matches(SKIP_ROWS[2], w)
    requires !Matches(SKIP_ROWS[3], w) && !Matches(BIT_ROWS[2], w) && !Matches(BIT_ROWS[3], w)
    ensures KindOf(w) == None
  {
  }

  lemma SectionsInTable()
    ensures forall i :: 0 <= i < |ARITHMETIC_ROWS| ==> ARITHMETIC_ROWS[i] in TABLE
    ensures forall i :: 0 <= i < |LOGIC_ROWS| ==> LOGIC_ROWS[i] in TABLE
    ensures forall i :: 0 <= i < |SHIFT_ROWS| ==> SHIFT_ROWS[i] in TABLE
    ensures forall i :: 0 <= i < |COMPARE_ROWS| ==> COMPARE_ROWS[i] in TABLE
    ensures forall i :: 0 <= i < |MOVE_ROWS| ==> MOVE_ROWS[i] in TABLE
    ensures forall i :: 0 <= i < |LOAD_ROWS| ==> LOAD_ROWS[i] in TABLE
    ensures forall i :: 0 <= i < |STORE_ROWS| ==> STORE_ROWS[i] in TABLE
    ensures forall i :: 0 <= i < |BRANCH_ROWS| ==> BRANCH_ROWS[i] in TABLE
    ensures forall i :: 0 <= i < |JUMP_ROWS| ==> JUMP_ROWS[i] in TABLE
    ensures forall i :: 0 <= i < |SKIP_ROWS| ==> SKIP_ROWS[i] in TABLE
    ensures forall i :: 0 <= i < |BIT_ROWS| ==> BIT_ROWS[i] in TABLE
    ensures forall i :: 0 <= i < |CONTROL_ROWS| ==> CONTROL_ROWS[i] in TABLE
  {
  }

  ghost predicate NothingMatches(w: Code) {
    forall row :: row in TABLE ==> !Matches(row, w)
  }

  lemma LowerHalfGap(w: Code)
    requires NothingMatches(w) && w & 0x8000 == 0
    ensures KindOf(w) == None
  {
    hide KindOf, Matches;
    SectionsInTable();
    if w & 0xF000 == 0 { ZeroGap(w); }
    else if w & 0xF000 == 0x1000 || w & 0xF000 == 0x2000 { RegisterFull(w); }
    else { ImmediateFull(w); }
  }

  lemma MemoryGap(w: Code)
    requires NothingMatches(w) && 0x8000 <= w < 0xC000
    ensures KindOf(w) == None
  {
    hide KindOf, Matches;
    SectionsInTable();
    if w & 0xD000 == 0x8000 { DisplacementFull(w); }
    else if w & 0xFE00 == 0x9000 { LoadGap(w); }
    else if w & 0xFE00 == 0x9200 { StoreGap(w); }
    else if w & 0xFE00 == 0x9400 { OneRegisterGap(w); }
    else if w & 0xF000 == 0xB000 { InOutFull(w); }
    else { WideFull(w); }
  }

  lemma FlowGap(w: Code)
    requires NothingMatches(w) && 0xC000 <= w
    ensures KindOf(w) == None
  {
    hide KindOf, Matches;
    SectionsInTable();
    if w & 0xF000 == 0xF000 { ConditionalGap(w); } else { RelativeFull(w); }
  }

  // ------------------------------------------------------------------ main results

  /**
   For each of the 65536 words, scanning the ordered table answers with a row of the kind that the
   opcode map gives, and answers "unknown" exactly for the words that the map leaves undefined.
   */
  lemma TableReadsMap(w: Code)
    ensures Lookup(w).None? <==> KindOf(w).None?
    ensures Lookup(w).Some? ==> KindOf(w) == Some(RowKind(Lookup(w).value))
    ensures Lookup(w).Some? ==> Lookup(w).value.words == WordsOf(KindOf(w).value.op)
    ensures Lookup(w).Some? ==> Lookup(w).value.cycles == CyclesOf(KindOf(w).value.op)
  {
    hide FirstMatch, KindOf;
    if Lookup(w).None? {
      if w & 0x8000 == 0 { LowerHalfGap(w); } else if w < 0xC000 { MemoryGap(w); } else { FlowGap(w); }
    } else {
      var row := Lookup(w).value;
      LookupUnshadowed(w);
      DecoderRows.TableAgrees(row, w);
      TableFacts(row);
      AliasesCostTheSame(row.op);
    }
  }

  lemma BaseModeIsZeroDisplacement(row: Row, w: Code)
    requires RowFacts(row) && Matches(row, w)
    ensures row.op == Bitwise(SER) ==> Imm8(w) == 0xFF
    ensures IsBaseMode(row) ==> Mode(w) == 0 && Disp6(w) == 0
  {
    if row.op == Bitwise(SER) {
      assert ((w >> 4) & 0xF0) | (w & 0x0F) == 0xFF;
    }
    if IsBaseMode(row) {
      assert w & 0x2C07 == 0;
      assert ((w >> 8) & 0x20) | ((w >> 7) & 0x18) | (w & 0x07) == 0;
      assert w & 0x03 == 0;
    }
  }

  /** SER is LDI 0xFF. */
  lemma SerIsLdi(m: State, d: Reg)
    ensures ExecuteLogic(m, Ser(d)) == ExecuteLogic(m, Ldi(d, 0xFF))
  {
  }

  /** LD without a displacement is LDD with displacement 0. */
  lemma LdIsLdd(m: State, x: Pointer, d: Reg)
    ensures ExecuteData(m, Ld(x, d, 0)) == ExecuteData(m, Ldd(x, d, 0))
  {
    hide ReadData, WriteData, PairValue;
  }

  /** ST without a displacement is STD with displacement 0. */
  lemma StIsStd(m: State, x: Pointer, d: Reg)
    ensures ExecuteData(m, St(x, d, 0)) == ExecuteData(m, Std(x, d, 0))
  {
    hide ReadData, WriteData, PairValue;
  }

  lemma RowKindShape(row: Row)
    ensures RowKind(row).op == Canonical(row.op)
    ensures row.op.Mem? ==> Canonical(row.op) == row.op
    ensures Canonical(Bitwise(LDI)) == Bitwise(LDI)
    ensures IsBaseMode(row) ==> RowKind(row).fmt == LddFamily && row.fmt.LdFamily?
    ensures row.op.Mem? && !IsBaseMode(row) ==> RowKind(row).fmt == row.fmt
  {
  }

  lemma BaseModeIsIndirect(row: Row)
    requires RowFacts(row) && IsBaseMode(row)
    ensures IsIndirect(row.op)
  {
  }

  predicate IsIndirect(op: Op) {
    op == Mem(LD_Y) || op == Mem(LD_Z) || op == Mem(ST_Y) || op == Mem(ST_Z)
  }

  /** A row acts like the kind it stands for. */
  lemma RowActsAsKind(row: Row, w: Code, second: Word, m: State)
    requires RowFacts(row) && Matches(row, w)
    ensures
      var kind := RowKind(row);
      Execute(m, Operands(row.op, row.fmt, w, second)) == Execute(m, Operands(kind.op, kind.fmt, w, second))
  {
    hide Execute, Operands, Matches, Imm8, Mode, Disp6, Handler, RowFacts, IsBaseMode, RowKind;
    RowKindShape(row);
    BaseModeIsZeroDisplacement(row, w);
    if row.op == Bitwise(SER) {
      SerActsAsLdi(row.fmt, w, second, m);
      AliasesDispatchAlike(Bitwise(LDI), row.fmt, RowKind(row).fmt, w, second);
    } else if IsBaseMode(row) {
      BaseModeIsIndirect(row);
      BaseModeActsAsDisplacement(row.op, row.fmt, w, second, m);
    } else {
      AliasesDispatchAlike(row.op, row.fmt, RowKind(row).fmt, w, second);
    }
  }

  lemma HandlersAreFixed(op: Op)
    ensures Handler(Handler(op)) == Handler(op)
  {
  }

  /** Mnemonics that share an operation are dispatched alike; only LD, ST and LPM look at the format. */
  lemma AliasesDispatchAlike(op: Op, fmt: Fmt, fmt': Fmt, w: Code, second: Word)
    requires op != Bitwise(SER) && (op.Mem? ==> fmt == fmt')
    ensures Operands(op, fmt, w, second) == Operands(Canonical(op), fmt', w, second)
  {
    hide Handler, ArithOperands, BitwiseOperands, MemOperands, ControlOperands, FlagsOperands, Offset7, BitLow;
    HandlersAreFixed(op);
    MemKeepsFormat(op);
  }

  lemma MemKeepsFormat(op: Op)
    ensures op.Mem? <==> Handler(op).Mem?
  {
  }

  lemma SerActsAsLdi(fmt: Fmt, w: Code, second: Word, m: State)
    requires Imm8(w) == 0xFF
    ensures Execute(m, Operands(Bitwise(SER), fmt, w, second)) == Execute(m, Operands(Bitwise(LDI), fmt, w, second))
  {
    hide ExecuteLogic, RegD, RegR, HighD, Imm8, NibbleD, NibbleR;
    SerIsLdi(m, HighD(w));
  }

  lemma BaseModeActsAsDisplacement(op: Op, fmt: Fmt, w: Code, second: Word, m: State)
    requires IsIndirect(op) && fmt.LdFamily? && Mode(w) == 0 && Disp6(w) == 0
    ensures Execute(m, Operands(op, fmt, w, second)) == Execute(m, Operands(op, LddFamily, w, second))
  {
    hide ExecuteData;
    hide RegD, RegR, HighD, Imm8, MulD, MulR, PairD, K6, NibbleD, NibbleR, BitMid, BitLow, Io5, Io6, Mode;
    hide Disp6, Offset7, Offset12, Target22;
    LdIsLdd(m, Y, RegD(w));
    LdIsLdd(m, Z, RegD(w));
    StIsStd(m, Y, RegD(w));
    StIsStd(m, Z, RegD(w));
  }

  /**
   Any two rows that match the same word have the same size, the same cycles and the same effect on
   every machine state, unless one of them is LD X or ST X on a word ending in 1111.
   */
  lemma OverlapsAgree(a: Row, b: Row, w: Code, second: Word, m: State)
    requires a in TABLE && b in TABLE && Matches(a, w) && Matches(b, w)
    requires !Shadowed(a, w) && !Shadowed(b, w)
    ensures a.words == b.words && a.cycles == b.cycles
    ensures Execute(m, Operands(a.op, a.fmt, w, second)) == Execute(m, Operands(b.op, b.fmt, w, second))
  {
    hide Execute, Operands, KindOf, Matches;
    DecoderRows.TableAgrees(a, w);
    DecoderRows.TableAgrees(b, w);
    TableFacts(a);
    TableFacts(b);
    AliasesCostTheSame(a.op);
    AliasesCostTheSame(b.op);
    RowActsAsKind(a, w, second, m);
    RowActsAsKind(b, w, second, m);
  }

  /** The only conflicting overlaps are LD X with POP and ST X with PUSH. */
  lemma ConflictsAreStackPairs(a: Row, b: Row, w: Code)
    requires a in TABLE && b in TABLE && Matches(a, w) && Matches(b, w)
    requires Shadowed(a, w) && !Shadowed(b, w)
    ensures (a.op == Mem(LD_X) && b.op == Mem(POP)) || (a.op == Mem(ST_X) && b.op == Mem(PUSH))
  {
    hide KindOf, Canonical, Matches, RowFacts, RowKind;
    TableFacts(a);
    ShadowedMatchesStack(a, w);
    DecoderRows.TableAgrees(b, w);
    RowKindShape(b);
    OnlyThemselves(b.op);
    StackWords(w);
  }

  /** Two excepted rows on one word are the same row. */
  lemma ShadowedRowsAreOne(a: Row, b: Row, w: Code)
    requires a in TABLE && b in TABLE && Matches(a, w) && Matches(b, w)
    requires Shadowed(a, w) && Shadowed(b, w)
    ensures a == b
  {
    TableFacts(a);
    TableFacts(b);
    SamePattern(a, b, w);
  }

  lemma SamePattern(a: Row, b: Row, w: Code)
    requires RowFacts(a) && RowFacts(b) && Matches(a, w) && Matches(b, w)
    requires Shadowed(a, w) && Shadowed(b, w)
    ensures a == b
  {
  }

  lemma OnlyThemselves(op: Op)
    ensures Canonical(op) == Mem(POP) ==> op == Mem(POP)
    ensures Canonical(op) == Mem(PUSH) ==> op == Mem(PUSH)
  {
  }

  lemma StackWords(w: Code)
    ensures w & 0xFE0F == 0x900F ==> KindOf(w) == Some(Kind(Mem(POP), RdOnly))
    ensures w & 0xFE0F == 0x920F ==> KindOf(w) == Some(Kind(Mem(PUSH), RdOnly))
  {
  }

  /** Those two conflicts are real: off the stack's ends, POP and PUSH move SP and LD X and ST X do not. */
  lemma StackPairsConflict(m: State, d: Reg)
    requires STACK_BOTTOM <= m.sp < DATA_SPACE_END
    ensures PairValue(m, X) !in {SPL_ADDR, SPH_ADDR} ==> ExecuteData(m, Push(d)) != ExecuteData(m, St(X, d, 3))
    ensures ExecuteData(m, Pop(d)) != ExecuteData(m, Ld(X, d, 3))
  {
    SpMoves(m, m.sp, m.r[d]);
    assert ExecuteData(m, Push(d)).sp == m.sp - 1;
    assert ExecuteData(m, Pop(d)).sp == m.sp + 1;
    assert ExecuteData(m, Ld(X, d, 3)).sp == m.sp;
  }

  lemma SpMoves(m: State, addr: Word, value: Byte)
    requires addr != SPL_ADDR && addr != SPH_ADDR
    ensures WriteData(m, addr, value).sp == m.sp
  {
  }
}
