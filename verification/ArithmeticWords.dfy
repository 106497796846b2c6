/** What every arithmetic word does, in integers. */
module ArithmeticWords {
  import opened Bits
  import opened Alu
  import opened OpcodeTable
  import opened Decoder
  import opened OperandLaws
  import opened Machine
  import opened Instructions
  import opened WordReadings

  /** Two's complement. */
  function S(x: Byte): int {
    if x < 128 then x else x - 256
  }

  function S16(x: Word): int {
    if x < 32768 then x else x - 65536
  }

  lemma SumIs(a: Byte, b: Byte, ci: bool, z: bool, f: Sreg)
    ensures
      var total, signed := a as int + b as int + Flag01(ci), S(a) + S(b) + Flag01(ci);
      Sum(a, b, ci, z, f) == ByteResult(total % 256,
        f.(c := total >= 256, z := z && total % 256 == 0, n := total % 256 >= 128, v := !(-128 <= signed < 128),
           s := signed < 0, h := a % 16 + b % 16 + Flag01(ci) >= 16))
  {
  }

  lemma DifferenceIs(a: Byte, b: Byte, ci: bool, z: bool, f: Sreg)
    ensures
      var total, signed := a as int - b as int - Flag01(ci), S(a) - S(b) - Flag01(ci);
      Difference(a, b, ci, z, f) == ByteResult(total % 256,
        f.(c := total < 0, z := z && total % 256 == 0, n := total % 256 >= 128, v := !(-128 <= signed < 128),
           s := signed < 0, h := a % 16 < b % 16 + Flag01(ci)))
  {
  }

  lemma NegIs(b: Byte, f: Sreg)
    ensures
      var res := (256 - b as int) % 256;
      Alu.Neg(b, f) == ByteResult(res,
        f.(c := b > 0, z := b == 0, n := res >= 128, v := b == 128, s := -S(b) < 0, h := b % 16 > 0))
  {
    NegValue(b);
    DifferenceIs(0, b, false, true, f);
    hide Difference;
  }

  lemma NegValue(b: Byte)
    ensures (0 - b as int) % 256 == (256 - b as int) % 256 == if b == 0 then 0 else 256 - b as int
  {
  }

  lemma IncIs(a: Byte, f: Sreg)
    ensures
      var res := (a as int + 1) % 256;
      Alu.Inc(a, f) == ByteResult(res, f.(z := res == 0, n := res >= 128, v := a == 127, s := S(a) + 1 < 0))
  {
    SumIs(a, 1, false, true, f);
    hide Sum;
  }

  lemma DecIs(a: Byte, f: Sreg)
    ensures
      var res := (a as int - 1) % 256;
      Alu.Dec(a, f) == ByteResult(res, f.(z := res == 0, n := res >= 128, v := a == 128, s := S(a) - 1 < 0))
  {
    DecValue(a);
    DifferenceIs(a, 1, false, true, f);
    hide Difference;
  }

  lemma DecValue(a: Byte)
    ensures (a as int - 1) % 256 == if a == 0 then 255 else a as int - 1
  {
  }

  lemma AdiwIs(x: Word, k: Byte, f: Sreg)
    requires k < 64
    ensures
      var res, signed := (x + k as int) % 65536, S16(x) + k as int;
      Alu.Adiw(x, k, f) == WordResult(res,
        f.(c := x + k as int >= 65536, z := res == 0, n := res >= 32768, v := !(-32768 <= signed < 32768),
           s := signed < 0))
  {
  }

  lemma SbiwIs(x: Word, k: Byte, f: Sreg)
    requires k < 64
    ensures
      var res, signed := (x - k as int) % 65536, S16(x) - k as int;
      Alu.Sbiw(x, k, f) == WordResult(res,
        f.(c := x < k, z := res == 0, n := res >= 32768, v := !(-32768 <= signed < 32768),
           s := signed < 0))
  {
  }

  lemma SignedIs(x: Byte)
    ensures Signed8(x) == S(x)
  {
  }

  lemma ProductIs(m: State, a: int, b: int)
    ensures
      var res := (a * b) % 65536;
      Product(m, Times(a, b)) ==
      m.(r := m.r[0 := res % 256][1 := res / 256], sreg := m.sreg.(c := res >= 32768, z := res == 0))
    ensures
      var res := 2 * (a * b) % 65536;
      Product(m, 2 * Times(a, b)) ==
      m.(r := m.r[0 := res % 256][1 := res / 256], sreg := m.sreg.(c := res >= 32768, z := res == 0))
  {
  }

  /** Comparing keeps the registers. */
  lemma CpiIs(m: State, d: HighReg, b: Byte)
    ensures
      var a: Byte := m.r[d];
      var total, signed := a as int - b as int, S(a) - S(b);
      var res := total % 256;
      Execute(m, Ins.Arithmetic(ArithmeticIns.Cpi(d, b))) == m.(
        sreg := m.sreg.(c := total < 0, z := res == 0, n := res >= 128, v := !(-128 <= signed < 128),
                        s := signed < 0, h := a % 16 < b % 16))
  {
    hide Difference, S;
    DifferenceIs(m.r[d], b, false, true, m.sreg);
  }

  /** ADD Rd,Rr; LSL Rd is ADD Rd,Rd. */
  lemma AddWord(m: State, d: Field5, r: Field5)
    requires At(m, 0x0C00 | ((r & 0x10) << 5) | (d << 4) | (r & 0x0F))
    ensures m.pc + 2 <= 0x8000
    ensures
      var a: Byte, b: Byte := m.r[No(d)], m.r[No(r)];
      var total, signed := a as int + b as int, S(a) + S(b);
      var res := total % 256;
      Instruction(m) == Retired(Started(m, 2).(
        r := m.r[No(d) := res],
        sreg := m.sreg.(c := total >= 256, z := res == 0, n := res >= 128, v := !(-128 <= signed < 128),
                        s := signed < 0, h := a % 16 + b % 16 >= 16)), 1)
  {
    hide Instruction, Retired, At, No, High, Reads, PairNo, Sum, S, Signed8;
    AddReads(d, r);
    RunsAsRead(m, AssembleRdRr(0x0C00, d, r), Ins.Arithmetic(ArithmeticIns.Add(No(d), No(r))), 1);
    SumIs(m.r[No(d)], m.r[No(r)], false, true, m.sreg);
  }

  /** ADC Rd,Rr; ROL Rd is ADC Rd,Rd. */
  lemma AdcWord(m: State, d: Field5, r: Field5)
    requires At(m, 0x1C00 | ((r & 0x10) << 5) | (d << 4) | (r & 0x0F))
    ensures m.pc + 2 <= 0x8000
    ensures
      var a: Byte, b: Byte := m.r[No(d)], m.r[No(r)];
      var total, signed := a as int + b as int + Flag01(m.sreg.c), S(a) + S(b) + Flag01(m.sreg.c);
      var res := total % 256;
      Instruction(m) == Retired(Started(m, 2).(
        r := m.r[No(d) := res],
        sreg := m.sreg.(c := total >= 256, z := m.sreg.z && res == 0, n := res >= 128, v := !(-128 <= signed < 128),
                        s := signed < 0, h := a % 16 + b % 16 + Flag01(m.sreg.c) >= 16)), 1)
  {
    hide Instruction, Retired, At, No, High, Reads, PairNo, Sum, S, Signed8;
    AdcReads(d, r);
    RunsAsRead(m, AssembleRdRr(0x1C00, d, r), Ins.Arithmetic(ArithmeticIns.Adc(No(d), No(r))), 1);
    SumIs(m.r[No(d)], m.r[No(r)], m.sreg.c, m.sreg.z, m.sreg);
  }

  /** SUB Rd,Rr. */
  lemma SubWord(m: State, d: Field5, r: Field5)
    requires At(m, 0x1800 | ((r & 0x10) << 5) | (d << 4) | (r & 0x0F))
    ensures m.pc + 2 <= 0x8000
    ensures
      var a: Byte, b: Byte := m.r[No(d)], m.r[No(r)];
      var total, signed := a as int - b as int, S(a) - S(b);
      var res := total % 256;
      Instruction(m) == Retired(Started(m, 2).(
        r := m.r[No(d) := res],
        sreg := m.sreg.(c := total < 0, z := res == 0, n := res >= 128, v := !(-128 <= signed < 128),
                        s := signed < 0, h := a % 16 < b % 16)), 1)
  {
    hide Instruction, Retired, At, No, High, Reads, PairNo, Difference, S, Signed8;
    SubReads(d, r);
    RunsAsRead(m, AssembleRdRr(0x1800, d, r), Ins.Arithmetic(ArithmeticIns.Sub(No(d), No(r))), 1);
    DifferenceIs(m.r[No(d)], m.r[No(r)], false, true, m.sreg);
  }

  /** SBC Rd,Rr. */
  lemma SbcWord(m: State, d: Field5, r: Field5)
    requires At(m, 0x0800 | ((r & 0x10) << 5) | (d << 4) | (r & 0x0F))
    ensures m.pc + 2 <= 0x8000
    ensures
      var a: Byte, b: Byte := m.r[No(d)], m.r[No(r)];
      var total, signed := a as int - b as int - Flag01(m.sreg.c), S(a) - S(b) - Flag01(m.sreg.c);
      var res := total % 256;
      Instruction(m) == Retired(Started(m, 2).(
        r := m.r[No(d) := res],
        sreg := m.sreg.(c := total < 0, z := m.sreg.z && res == 0, n := res >= 128, v := !(-128 <= signed < 128),
                        s := signed < 0, h := a % 16 < b % 16 + Flag01(m.sreg.c))), 1)
  {
    hide Instruction, Retired, At, No, High, Reads, PairNo, Difference, S, Signed8;
    SbcReads(d, r);
    RunsAsRead(m, AssembleRdRr(0x0800, d, r), Ins.Arithmetic(ArithmeticIns.Sbc(No(d), No(r))), 1);
    DifferenceIs(m.r[No(d)], m.r[No(r)], m.sreg.c, m.sreg.z, m.sreg);
  }

  /** CP Rd,Rr. */
  lemma CpWord(m: State, d: Field5, r: Field5)
    requires At(m, 0x1400 | ((r & 0x10) << 5) | (d << 4) | (r & 0x0F))
    ensures m.pc + 2 <= 0x8000
    ensures
      var a: Byte, b: Byte := m.r[No(d)], m.r[No(r)];
      var total, signed := a as int - b as int, S(a) - S(b);
      var res := total % 256;
      Instruction(m) == Retired(Started(m, 2).(
        sreg := m.sreg.(c := total < 0, z := res == 0, n := res >= 128, v := !(-128 <= signed < 128),
                        s := signed < 0, h := a % 16 < b % 16)), 1)
  {
    hide Instruction, Retired, At, No, High, Reads, PairNo, Difference, S, Signed8;
    CpReads(d, r);
    RunsAsRead(m, AssembleRdRr(0x1400, d, r), Ins.Arithmetic(ArithmeticIns.Cp(No(d), No(r))), 1);
    DifferenceIs(m.r[No(d)], m.r[No(r)], false, true, m.sreg);
  }

  /** CPC Rd,Rr. */
  lemma CpcWord(m: State, d: Field5, r: Field5)
    requires At(m, 0x0400 | ((r & 0x10) << 5) | (d << 4) | (r & 0x0F))
    ensures m.pc + 2 <= 0x8000
    ensures
      var a: Byte, b: Byte := m.r[No(d)], m.r[No(r)];
      var total, signed := a as int - b as int - Flag01(m.sreg.c), S(a) - S(b) - Flag01(m.sreg.c);
      var res := total % 256;
      Instruction(m) == Retired(Started(m, 2).(
        sreg := m.sreg.(c := total < 0, z := m.sreg.z && res == 0, n := res >= 128, v := !(-128 <= signed < 128),
                        s := signed < 0, h := a % 16 < b % 16 + Flag01(m.sreg.c))), 1)
  {
    hide Instruction, Retired, At, No, High, Reads, PairNo, Difference, S, Signed8;
    CpcReads(d, r);
    RunsAsRead(m, AssembleRdRr(0x0400, d, r), Ins.Arithmetic(ArithmeticIns.Cpc(No(d), No(r))), 1);
    DifferenceIs(m.r[No(d)], m.r[No(r)], m.sreg.c, m.sreg.z, m.sreg);
  }

  /** SUBI Rd,K on R16 to R31. */
  lemma SubiWord(m: State, d: Field4, k: Field8)
    requires At(m, 0x5000 | ((k & 0xF0) << 4) | (d << 4) | (k & 0x0F))
    ensures m.pc + 2 <= 0x8000
    ensures
      var a: Byte, b: Byte := m.r[High(d)], k as int;
      var total, signed := a as int - b as int, S(a) - S(b);
      var res := total % 256;
      Instruction(m) == Retired(Started(m, 2).(
        r := m.r[High(d) := res],
        sreg := m.sreg.(c := total < 0, z := res == 0, n := res >= 128, v := !(-128 <= signed < 128),
                        s := signed < 0, h := a % 16 < b % 16)), 1)
  {
    hide Instruction, Retired, At, No, High, Reads, PairNo, Difference, S, Signed8;
    SubiReads(d, k);
    RunsAsRead(m, AssembleRdK8(0x5000, d, k), Ins.Arithmetic(ArithmeticIns.Subi(High(d), k as int)), 1);
    DifferenceIs(m.r[High(d)], k as int, false, true, m.sreg);
  }

  /** SBCI Rd,K on R16 to R31. */
  lemma SbciWord(m: State, d: Field4, k: Field8)
    requires At(m, 0x4000 | ((k & 0xF0) << 4) | (d << 4) | (k & 0x0F))
    ensures m.pc + 2 <= 0x8000
    ensures
      var a: Byte, b: Byte := m.r[High(d)], k as int;
      var total, signed := a as int - b as int - Flag01(m.sreg.c), S(a) - S(b) - Flag01(m.sreg.c);
      var res := total % 256;
      Instruction(m) == Retired(Started(m, 2).(
        r := m.r[High(d) := res],
        sreg := m.sreg.(c := total < 0, z := m.sreg.z && res == 0, n := res >= 128, v := !(-128 <= signed < 128),
                        s := signed < 0, h := a % 16 < b % 16 + Flag01(m.sreg.c))), 1)
  {
    hide Instruction, Retired, At, No, High, Reads, PairNo, Difference, S, Signed8;
    SbciReads(d, k);
    RunsAsRead(m, AssembleRdK8(0x4000, d, k), Ins.Arithmetic(ArithmeticIns.Sbci(High(d), k as int)), 1);
    DifferenceIs(m.r[High(d)], k as int, m.sreg.c, m.sreg.z, m.sreg);
  }

  /** CPI Rd,K on R16 to R31. */
  lemma CpiWord(m: State, d: Field4, k: Field8)
    requires At(m, 0x3000 | ((k & 0xF0) << 4) | (d << 4) | (k & 0x0F))
    ensures m.pc + 2 <= 0x8000
    ensures
      var a: Byte, b: Byte := m.r[High(d)], k as int;
      var total, signed := a as int - b as int, S(a) - S(b);
      var res := total % 256;
      Instruction(m) == Retired(Started(m, 2).(
        sreg := m.sreg.(c := total < 0, z := res == 0, n := res >= 128, v := !(-128 <= signed < 128),
                        s := signed < 0, h := a % 16 < b % 16)), 1)
  {
    hide Instruction, Retired, At, No, High, Reads, PairNo, Execute, S;
    CpiReads(d, k);
    RunsAsRead(m, AssembleRdK8(0x3000, d, k), Ins.Arithmetic(ArithmeticIns.Cpi(High(d), k as int)), 1);
    CpiIs(Started(m, 2), High(d), k as int);
  }

  /** NEG Rd. */
  lemma NegWord(m: State, d: Field5)
    requires At(m, 0x9401 | (d << 4))
    ensures m.pc + 2 <= 0x8000
    ensures
      var b: Byte := m.r[No(d)];
      var res, signed := (256 - b as int) % 256, -S(b);
      Instruction(m) == Retired(Started(m, 2).(
        r := m.r[No(d) := res],
        sreg := m.sreg.(c := b > 0, z := b == 0, n := res >= 128, v := b == 128, s := signed < 0, h := b % 16 > 0)), 1)
  {
    hide Instruction, Retired, At, No, High, Reads, PairNo, Alu.Neg, S;
    NegReads(d);
    RunsAsRead(m, AssembleRd(0x9401, d), Ins.Arithmetic(ArithmeticIns.Neg(No(d))), 1);
    NegIs(m.r[No(d)], m.sreg);
  }

  /** INC Rd, C and H kept. */
  lemma IncWord(m: State, d: Field5)
    requires At(m, 0x9403 | (d << 4))
    ensures m.pc + 2 <= 0x8000
    ensures
      var a: Byte := m.r[No(d)];
      var res := (a as int + 1) % 256;
      Instruction(m) == Retired(Started(m, 2).(
        r := m.r[No(d) := res],
        sreg := m.sreg.(z := res == 0, n := res >= 128, v := a == 127, s := S(a) + 1 < 0)), 1)
  {
    hide Instruction, Retired, At, No, High, Reads, PairNo, Alu.Inc, S;
    IncReads(d);
    RunsAsRead(m, AssembleRd(0x9403, d), Ins.Arithmetic(ArithmeticIns.Inc(No(d))), 1);
    IncIs(m.r[No(d)], m.sreg);
  }

  /** DEC Rd, C and H kept. */
  lemma DecWord(m: State, d: Field5)
    requires At(m, 0x940A | (d << 4))
    ensures m.pc + 2 <= 0x8000
    ensures
      var a: Byte := m.r[No(d)];
      var res := (a as int - 1) % 256;
      Instruction(m) == Retired(Started(m, 2).(
        r := m.r[No(d) := res],
        sreg := m.sreg.(z := res == 0, n := res >= 128, v := a == 128, s := S(a) - 1 < 0)), 1)
  {
    hide Instruction, Retired, At, No, High, Reads, PairNo, Alu.Dec, S;
    DecReads(d);
    RunsAsRead(m, AssembleRd(0x940A, d), Ins.Arithmetic(ArithmeticIns.Dec(No(d))), 1);
    DecIs(m.r[No(d)], m.sreg);
  }

  /** ADIW Rp,K on R25:R24 and the three pointers, H kept. */
  lemma AdiwWord(m: State, p: Field2, k: Field6)
    requires At(m, 0x9600 | ((k & 0x30) << 2) | (p << 4) | (k & 0x0F))
    ensures m.pc + 2 <= 0x8000
    ensures
      var x := Num16(m.r[PairNo(p)], m.r[PairNo(p) + 1]);
      var signed := S16(x) + k as int;
      var res := (x + k as int) % 65536;
      Instruction(m) == Retired(Started(m, 2).(
        r := m.r[PairNo(p) := res % 256][PairNo(p) + 1 := res / 256],
        sreg := m.sreg.(c := x + k as int >= 65536, z := res == 0, n := res >= 32768,
                        v := !(-32768 <= signed < 32768), s := signed < 0)), 2)
  {
    hide Instruction, Retired, At, No, High, Reads, PairNo, Alu.Adiw, S16, Num16, Join;
    AdiwReads(p, k);
    RunsAsRead(m, AssembleRd06K6(0x9600, p, k), Ins.Arithmetic(ArithmeticIns.Adiw(PairNo(p), k as int)), 2);
    NumIs(m.r[PairNo(p)], m.r[PairNo(p) + 1]);
    AdiwIs(Num16(m.r[PairNo(p)], m.r[PairNo(p) + 1]), k as int, m.sreg);
  }

  /** SBIW Rp,K on R25:R24 and the three pointers, H kept. */
  lemma SbiwWord(m: State, p: Field2, k: Field6)
    requires At(m, 0x9700 | ((k & 0x30) << 2) | (p << 4) | (k & 0x0F))
    ensures m.pc + 2 <= 0x8000
    ensures
      var x := Num16(m.r[PairNo(p)], m.r[PairNo(p) + 1]);
      var signed := S16(x) - k as int;
      var res := (x - k as int) % 65536;
      Instruction(m) == Retired(Started(m, 2).(
        r := m.r[PairNo(p) := res % 256][PairNo(p) + 1 := res / 256],
        sreg := m.sreg.(c := x < k as int, z := res == 0, n := res >= 32768,
                        v := !(-32768 <= signed < 32768), s := signed < 0)), 2)
  {
    hide Instruction, Retired, At, No, High, Reads, PairNo, Alu.Sbiw, S16, Num16, Join;
    SbiwReads(p, k);
    RunsAsRead(m, AssembleRd06K6(0x9700, p, k), Ins.Arithmetic(ArithmeticIns.Sbiw(PairNo(p), k as int)), 2);
    NumIs(m.r[PairNo(p)], m.r[PairNo(p) + 1]);
    SbiwIs(Num16(m.r[PairNo(p)], m.r[PairNo(p) + 1]), k as int, m.sreg);
  }

  /** MUL Rd,Rr, unsigned. */
  lemma MulWord(m: State, d: Field5, r: Field5)
    requires At(m, 0x9C00 | ((r & 0x10) << 5) | (d << 4) | (r & 0x0F))
    ensures m.pc + 2 <= 0x8000
    ensures
      var a: int, b: int := m.r[No(d)], m.r[No(r)];
      var res := (a * b) % 65536;
      Instruction(m) == Retired(Started(m, 2).(
        r := m.r[0 := res % 256][1 := res / 256], sreg := m.sreg.(c := res >= 32768, z := res == 0)), 2)
  {
    hide Instruction, Retired, At, No, High, Reads, PairNo, Product, Times, Signed8, S;
    MulReads(d, r);
    RunsAsRead(m, AssembleRdRr(0x9C00, d, r), Ins.Arithmetic(ArithmeticIns.Mul(No(d), No(r))), 2);
    ProductIs(Started(m, 2), m.r[No(d)], m.r[No(r)]);
  }

  /** MULS Rd,Rr on R16 to R31, signed. */
  lemma MulsWord(m: State, d: Field4, r: Field4)
    requires At(m, 0x0200 | (d << 4) | r)
    ensures m.pc + 2 <= 0x8000
    ensures
      var a: int, b: int := S(m.r[16 + d as int]), S(m.r[16 + r as int]);
      var res := (a * b) % 65536;
      Instruction(m) == Retired(Started(m, 2).(
        r := m.r[0 := res % 256][1 := res / 256], sreg := m.sreg.(c := res >= 32768, z := res == 0)), 2)
  {
    hide Instruction, Retired, At, No, High, Reads, PairNo, Product, Times, Signed8, S;
    MulsReads(d, r);
    RunsAsRead(m, AssembleRd06Rr06(0x0200, d, r), Ins.Arithmetic(ArithmeticIns.Muls(d as int, r as int)), 2);
    SignedIs(m.r[16 + d as int]);
    SignedIs(m.r[16 + r as int]);
    ProductIs(Started(m, 2), S(m.r[16 + d as int]), S(m.r[16 + r as int]));
  }

  /** MULSU Rd,Rr on R16 to R23, signed by unsigned. */
  lemma MulsuWord(m: State, d: Field3, r: Field3)
    requires At(m, 0x0300 | (d << 4) | r)
    ensures m.pc + 2 <= 0x8000
    ensures
      var a: int, b: int := S(m.r[16 + d as int]), m.r[16 + r as int];
      var res := (a * b) % 65536;
      Instruction(m) == Retired(Started(m, 2).(
        r := m.r[0 := res % 256][1 := res / 256], sreg := m.sreg.(c := res >= 32768, z := res == 0)), 2)
  {
    hide Instruction, Retired, At, No, High, Reads, PairNo, Product, Times, Signed8, S;
    MulsuReads(d, r);
    RunsAsRead(m, AssembleRdRrMpy(0x0300, d, r), Ins.Arithmetic(ArithmeticIns.Mulsu(16 + d as int, 16 + r as int)), 2);
    SignedIs(m.r[16 + d as int]);
    ProductIs(Started(m, 2), S(m.r[16 + d as int]), m.r[16 + r as int]);
  }

  /** FMUL Rd,Rr on R16 to R23, unsigned. */
  lemma FmulWord(m: State, d: Field3, r: Field3)
    requires At(m, 0x0308 | (d << 4) | r)
    ensures m.pc + 2 <= 0x8000
    ensures
      var a: int, b: int := m.r[16 + d as int], m.r[16 + r as int];
      var res := 2 * (a * b) % 65536;
      Instruction(m) == Retired(Started(m, 2).(
        r := m.r[0 := res % 256][1 := res / 256], sreg := m.sreg.(c := res >= 32768, z := res == 0)), 2)
  {
    hide Instruction, Retired, At, No, High, Reads, PairNo, Product, Times, Signed8, S;
    FmulReads(d, r);
    RunsAsRead(m, AssembleRdRrMpy(0x0308, d, r), Ins.Arithmetic(ArithmeticIns.Fmul(16 + d as int, 16 + r as int)), 2);
    ProductIs(Started(m, 2), m.r[16 + d as int], m.r[16 + r as int]);
  }

  /** FMULS Rd,Rr on R16 to R23, signed. */
  lemma FmulsWord(m: State, d: Field3, r: Field3)
    requires At(m, 0x0380 | (d << 4) | r)
    ensures m.pc + 2 <= 0x8000
    ensures
      var a: int, b: int := S(m.r[16 + d as int]), S(m.r[16 + r as int]);
      var res := 2 * (a * b) % 65536;
      Instruction(m) == Retired(Started(m, 2).(
        r := m.r[0 := res % 256][1 := res / 256], sreg := m.sreg.(c := res >= 32768, z := res == 0)), 2)
  {
    hide Instruction, Retired, At, No, High, Reads, PairNo, Product, Times, Signed8, S;
    FmulsReads(d, r);
    RunsAsRead(m, AssembleRdRrMpy(0x0380, d, r), Ins.Arithmetic(ArithmeticIns.Fmuls(16 + d as int, 16 + r as int)), 2);
    SignedIs(m.r[16 + d as int]);
    SignedIs(m.r[16 + r as int]);
    ProductIs(Started(m, 2), S(m.r[16 + d as int]), S(m.r[16 + r as int]));
  }

  /** FMULSU Rd,Rr on R16 to R23, signed by unsigned. */
  lemma FmulsuWord(m: State, d: Field3, r: Field3)
    requires At(m, 0x0388 | (d << 4) | r)
    ensures m.pc + 2 <= 0x8000
    ensures
      var a: int, b: int := S(m.r[16 + d as int]), m.r[16 + r as int];
      var res := 2 * (a * b) % 65536;
      Instruction(m) == Retired(Started(m, 2).(
        r := m.r[0 := res % 256][1 := res / 256], sreg := m.sreg.(c := res >= 32768, z := res == 0)), 2)
  {
    hide Instruction, Retired, At, No, High, Reads, PairNo, Product, Times, Signed8, S;
    FmulsuReads(d, r);
    RunsAsRead(m, AssembleRdRrMpy(0x0388, d, r), Ins.Arithmetic(ArithmeticIns.Fmulsu(16 + d as int, 16 + r as int)), 2);
    SignedIs(m.r[16 + d as int]);
    ProductIs(Started(m, 2), S(m.r[16 + d as int]), m.r[16 + r as int]);
  }
}
