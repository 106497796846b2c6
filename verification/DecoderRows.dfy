/** Every row of the opcode table agrees with the opcode map; checked a few rows at a time. */
module DecoderRows {
  import opened OpcodeTable
  import opened OpcodeMap

  lemma ArithmeticA(w: Code, i: nat)
    requires i < 4
    ensures Agrees(ARITHMETIC_ROWS[i], w)
  {
  }

  lemma ArithmeticB(w: Code, i: nat)
    requires 4 <= i < 9
    ensures Agrees(ARITHMETIC_ROWS[i], w)
  {
  }

  lemma ArithmeticC(w: Code, i: nat)
    requires 9 <= i < 13
    ensures Agrees(ARITHMETIC_ROWS[i], w)
  {
  }

  lemma ArithmeticD(w: Code, i: nat)
    requires 13 <= i < 18
    ensures Agrees(ARITHMETIC_ROWS[i], w)
  {
  }

  lemma ArithmeticAgree(w: Code, row: Row)
    requires row in ARITHMETIC_ROWS
    ensures Agrees(row, w)
  {
    hide Agrees;
    var i :| 0 <= i < 18 && ARITHMETIC_ROWS[i] == row;
    if i < 4 { ArithmeticA(w, i); }
    else if i < 9 { ArithmeticB(w, i); }
    else if i < 13 { ArithmeticC(w, i); }
    else { ArithmeticD(w, i); }
  }

  lemma LogicA(w: Code, i: nat)
    requires i < 3
    ensures Agrees(LOGIC_ROWS[i], w)
  {
  }

  lemma LogicB(w: Code, i: nat)
    requires 3 <= i < 7
    ensures Agrees(LOGIC_ROWS[i], w)
  {
  }

  lemma LogicC(w: Code, i: nat)
    requires 7 <= i < 11
    ensures Agrees(LOGIC_ROWS[i], w)
  {
  }

  lemma LogicAgree(w: Code, row: Row)
    requires row in LOGIC_ROWS
    ensures Agrees(row, w)
  {
    hide Agrees;
    var i :| 0 <= i < 11 && LOGIC_ROWS[i] == row;
    if i < 3 { LogicA(w, i); }
    else if i < 7 { LogicB(w, i); }
    else { LogicC(w, i); }
  }

  lemma ShiftA(w: Code, i: nat)
    requires i < 4
    ensures Agrees(SHIFT_ROWS[i], w)
  {
  }

  lemma ShiftAgree(w: Code, row: Row)
    requires row in SHIFT_ROWS
    ensures Agrees(row, w)
  {
    hide Agrees;
    var i :| 0 <= i < 4 && SHIFT_ROWS[i] == row;
    ShiftA(w, i);
  }

  lemma CompareA(w: Code, i: nat)
    requires i < 5
    ensures Agrees(COMPARE_ROWS[i], w)
  {
  }

  lemma CompareAgree(w: Code, row: Row)
    requires row in COMPARE_ROWS
    ensures Agrees(row, w)
  {
    hide Agrees;
    var i :| 0 <= i < 5 && COMPARE_ROWS[i] == row;
    CompareA(w, i);
  }

  lemma MoveA(w: Code, i: nat)
    requires i < 3
    ensures Agrees(MOVE_ROWS[i], w)
  {
  }

  lemma MoveAgree(w: Code, row: Row)
    requires row in MOVE_ROWS
    ensures Agrees(row, w)
  {
    hide Agrees;
    var i :| 0 <= i < 3 && MOVE_ROWS[i] == row;
    MoveA(w, i);
  }

  lemma PopA(w: Code, i: nat)
    requires i < 1
    ensures Agrees(POP_ROWS[i], w)
  {
  }

  lemma PopAgree(w: Code, row: Row)
    requires row in POP_ROWS
    ensures Agrees(row, w)
  {
    hide Agrees;
    var i :| 0 <= i < 1 && POP_ROWS[i] == row;
    PopA(w, i);
  }

  lemma LoadA(w: Code, i: nat)
    requires i < 5
    ensures Agrees(LOAD_ROWS[i], w)
  {
  }

  lemma LoadB(w: Code, i: nat)
    requires 5 <= i < 10
    ensures Agrees(LOAD_ROWS[i], w)
  {
  }

  lemma LoadC(w: Code, i: nat)
    requires 10 <= i < 15
    ensures Agrees(LOAD_ROWS[i], w)
  {
  }

  lemma LoadAgree(w: Code, row: Row)
    requires row in LOAD_ROWS
    ensures Agrees(row, w)
  {
    hide Agrees;
    var i :| 0 <= i < 15 && LOAD_ROWS[i] == row;
    if i < 5 { LoadA(w, i); }
    else if i < 10 { LoadB(w, i); }
    else { LoadC(w, i); }
  }

  lemma PushA(w: Code, i: nat)
    requires i < 1
    ensures Agrees(PUSH_ROWS[i], w)
  {
  }

  lemma PushAgree(w: Code, row: Row)
    requires row in PUSH_ROWS
    ensures Agrees(row, w)
  {
    hide Agrees;
    var i :| 0 <= i < 1 && PUSH_ROWS[i] == row;
    PushA(w, i);
  }

  lemma StoreA(w: Code, i: nat)
    requires i < 5
    ensures Agrees(STORE_ROWS[i], w)
  {
  }

  lemma StoreB(w: Code, i: nat)
    requires 5 <= i < 10
    ensures Agrees(STORE_ROWS[i], w)
  {
  }

  lemma StoreAgree(w: Code, row: Row)
    requires row in STORE_ROWS
    ensures Agrees(row, w)
  {
    hide Agrees;
    var i :| 0 <= i < 10 && STORE_ROWS[i] == row;
    if i < 5 { StoreA(w, i); }
    else { StoreB(w, i); }
  }

  lemma BranchA(w: Code, i: nat)
    requires i < 5
    ensures Agrees(BRANCH_ROWS[i], w)
  {
  }

  lemma BranchB(w: Code, i: nat)
    requires 5 <= i < 10
    ensures Agrees(BRANCH_ROWS[i], w)
  {
  }

  lemma BranchC(w: Code, i: nat)
    requires 10 <= i < 15
    ensures Agrees(BRANCH_ROWS[i], w)
  {
  }

  lemma BranchD(w: Code, i: nat)
    requires 15 <= i < 20
    ensures Agrees(BRANCH_ROWS[i], w)
  {
  }

  lemma BranchAgree(w: Code, row: Row)
    requires row in BRANCH_ROWS
    ensures Agrees(row, w)
  {
    hide Agrees;
    var i :| 0 <= i < 20 && BRANCH_ROWS[i] == row;
    if i < 5 { BranchA(w, i); }
    else if i < 10 { BranchB(w, i); }
    else if i < 15 { BranchC(w, i); }
    else { BranchD(w, i); }
  }

  lemma JumpA(w: Code, i: nat)
    requires i < 4
    ensures Agrees(JUMP_ROWS[i], w)
  {
  }

  lemma JumpB(w: Code, i: nat)
    requires 4 <= i < 8
    ensures Agrees(JUMP_ROWS[i], w)
  {
  }

  lemma JumpAgree(w: Code, row: Row)
    requires row in JUMP_ROWS
    ensures Agrees(row, w)
  {
    hide Agrees;
    var i :| 0 <= i < 8 && JUMP_ROWS[i] == row;
    if i < 4 { JumpA(w, i); }
    else { JumpB(w, i); }
  }

  lemma SkipA(w: Code, i: nat)
    requires i < 4
    ensures Agrees(SKIP_ROWS[i], w)
  {
  }

  lemma SkipAgree(w: Code, row: Row)
    requires row in SKIP_ROWS
    ensures Agrees(row, w)
  {
    hide Agrees;
    var i :| 0 <= i < 4 && SKIP_ROWS[i] == row;
    SkipA(w, i);
  }

  lemma FlagA(w: Code, i: nat)
    requires i < 4
    ensures Agrees(FLAG_ROWS[i], w)
  {
  }

  lemma FlagB(w: Code, i: nat)
    requires 4 <= i < 8
    ensures Agrees(FLAG_ROWS[i], w)
  {
  }

  lemma FlagC(w: Code, i: nat)
    requires 8 <= i < 12
    ensures Agrees(FLAG_ROWS[i], w)
  {
  }

  lemma FlagD(w: Code, i: nat)
    requires 12 <= i < 16
    ensures Agrees(FLAG_ROWS[i], w)
  {
  }

  lemma FlagAgree(w: Code, row: Row)
    requires row in FLAG_ROWS
    ensures Agrees(row, w)
  {
    hide Agrees;
    var i :| 0 <= i < 16 && FLAG_ROWS[i] == row;
    if i < 4 { FlagA(w, i); }
    else if i < 8 { FlagB(w, i); }
    else if i < 12 { FlagC(w, i); }
    else { FlagD(w, i); }
  }

  lemma BitA(w: Code, i: nat)
    requires i < 3
    ensures Agrees(BIT_ROWS[i], w)
  {
  }

  lemma BitB(w: Code, i: nat)
    requires 3 <= i < 6
    ensures Agrees(BIT_ROWS[i], w)
  {
  }

  lemma BitAgree(w: Code, row: Row)
    requires row in BIT_ROWS
    ensures Agrees(row, w)
  {
    hide Agrees;
    var i :| 0 <= i < 6 && BIT_ROWS[i] == row;
    if i < 3 { BitA(w, i); }
    else { BitB(w, i); }
  }

  lemma ControlA(w: Code, i: nat)
    requires i < 5
    ensures Agrees(CONTROL_ROWS[i], w)
  {
  }

  lemma ControlAgree(w: Code, row: Row)
    requires row in CONTROL_ROWS
    ensures Agrees(row, w)
  {
    hide Agrees;
    var i :| 0 <= i < 5 && CONTROL_ROWS[i] == row;
    ControlA(w, i);
  }

  /** Every row of the table means what the opcode map says, whenever it matches unshadowed. */
  lemma TableAgrees(row: Row, w: Code)
    requires row in TABLE
    ensures Agrees(row, w)
  {
    hide Agrees;
    if row in ARITHMETIC_ROWS { ArithmeticAgree(w, row); }
    else if row in LOGIC_ROWS { LogicAgree(w, row); }
    else if row in SHIFT_ROWS { ShiftAgree(w, row); }
    else if row in COMPARE_ROWS { CompareAgree(w, row); }
    else if row in MOVE_ROWS { MoveAgree(w, row); }
    else if row in POP_ROWS { PopAgree(w, row); }
    else if row in LOAD_ROWS { LoadAgree(w, row); }
    else if row in PUSH_ROWS { PushAgree(w, row); }
    else if row in STORE_ROWS { StoreAgree(w, row); }
    else if row in BRANCH_ROWS { BranchAgree(w, row); }
    else if row in JUMP_ROWS { JumpAgree(w, row); }
    else if row in SKIP_ROWS { SkipAgree(w, row); }
    else if row in FLAG_ROWS { FlagAgree(w, row); }
    else if row in BIT_ROWS { BitAgree(w, row); }
    else if row in CONTROL_ROWS { ControlAgree(w, row); }
  }
}
