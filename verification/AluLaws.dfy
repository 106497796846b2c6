/** Products, multi-byte negation and what the logic instructions really do to SREG. */
module AluLaws {
  import opened Bits
  import opened Alu
  import opened AluChains
  import opened Decoder
  import opened Machine

  // ------------------------------------------------------------------ products

  lemma ProductBounds(a: int, b: int, lo: int, hi: int, top: nat)
    requires lo <= a <= hi && 0 <= b <= top && lo <= 0 <= hi
    ensures lo * top <= Times(a, b) <= hi * top
  {
    assert a * b <= hi * b <= hi * top;
    assert lo * top <= lo * b <= a * b;
  }

  lemma SignedProductBounds(a: int, b: int)
    requires InSignedRange(a) && InSignedRange(b)
    ensures -0x4000 <= Times(a, b) <= 0x4000
  {
    if b >= 0 {
      ProductBounds(a, b, -0x80, 0x80, 0x80);
    } else {
      ProductBounds(a, -b, -0x80, 0x80, 0x80);
      assert a * -b == -(a * b);
    }
  }

  /** R1:R0 after an instruction. */
  function R1R0(m: State): Word {
    Join(m.r[0], m.r[1])
  }

  lemma ProductLands(m: State, product: int)
    ensures R1R0(Product(m, product)) == Wrap16(product)
    ensures Product(m, product).sreg.c == (Wrap16(product) >= 0x8000)
    ensures Product(m, product).sreg.z == (Wrap16(product) == 0)
  {
    JoinSplits(Lo(Wrap16(product)), Hi(Wrap16(product)));
  }

  /** MUL leaves the exact unsigned product in R1:R0; C is its top bit. */
  lemma MulExact(m: State, d: Reg, r: Reg)
    ensures
      var m', product := ExecuteArithmetic(m, Mul(d, r)), Times(m.r[d], m.r[r]);
      R1R0(m') == product && m'.sreg.z == (product == 0) && m'.sreg.c == (product >= 0x8000)
  {
    hide Product, R1R0, Times;
    ProductBounds(m.r[d], m.r[r], 0, 0xFF, 0xFF);
    ProductLands(m, Times(m.r[d], m.r[r]));
  }

  /** MULS leaves the exact signed product; C is its sign. */
  lemma MulsExact(m: State, nd: Nibble, nr: Nibble)
    ensures
      var m', product := ExecuteArithmetic(m, Muls(nd, nr)), Times(Signed8(m.r[nd + 16]), Signed8(m.r[nr + 16]));
      Signed16(R1R0(m')) == product && m'.sreg.z == (product == 0) && m'.sreg.c == (product < 0)
  {
    hide Product, R1R0, Times;
    SignedProductBounds(Signed8(m.r[nd + 16]), Signed8(m.r[nr + 16]));
    ProductLands(m, Times(Signed8(m.r[nd + 16]), Signed8(m.r[nr + 16])));
  }

  /** MULSU leaves the exact product of a signed and an unsigned byte; C is its sign. */
  lemma MulsuExact(m: State, d: Reg, r: Reg)
    ensures
      var m', product := ExecuteArithmetic(m, Mulsu(d, r)), Times(Signed8(m.r[d]), m.r[r]);
      Signed16(R1R0(m')) == product && m'.sreg.z == (product == 0) && m'.sreg.c == (product < 0)
  {
    hide Product, R1R0, Times;
    ProductBounds(Signed8(m.r[d]), m.r[r], -0x80, 0x7F, 0xFF);
    ProductLands(m, Times(Signed8(m.r[d]), m.r[r]));
  }

  // ------------------------------------------------------------------ fractional products

  /**
   FMUL doubles the exact product and loses its bit 15. Z says that what is left is zero. C is bit 14
   of the product; the instruction set manual asks for bit 15, and the two agree exactly in the lowest
   and the highest quarter of the range.
   */
  lemma FmulExact(m: State, d: Reg, r: Reg)
    ensures
      var m', product := ExecuteArithmetic(m, Fmul(d, r)), Times(m.r[d], m.r[r]);
      && 0 <= product < 0x1_0000
      && R1R0(m') == 2 * product - (if product >= 0x8000 then 0x1_0000 else 0)
      && m'.sreg.z == (product % 0x8000 == 0) && m'.sreg.c == (product % 0x8000 >= 0x4000)
      && (m'.sreg.c == (product >= 0x8000) <==> product < 0x4000 || product >= 0xC000)
  {
    hide Product, R1R0, Times;
    ProductBounds(m.r[d], m.r[r], 0, 0xFF, 0xFF);
    ProductLands(m, 2 * Times(m.r[d], m.r[r]));
    WrapNear(2 * Times(m.r[d], m.r[r]));
  }

  lemma WrapNear(x: int)
    requires -0x2_0000 < x < 0x2_0000
    ensures
      Wrap16(x) == if x < -0x1_0000 then x + 0x2_0000 else if x < 0 then x + 0x1_0000
                   else if x < 0x1_0000 then x else x - 0x1_0000
  {
  }

  /** The largest signed product comes from the two smallest operands only. */
  lemma LargestSignedProduct(a: int, b: int)
    requires InSignedRange(a) && InSignedRange(b)
    ensures Times(a, b) == 0x4000 <==> a == -0x80 && b == -0x80
    ensures -0x4000 < Times(a, b) <= 0x4000
  {
    SignedProductBounds(a, b);
    if b > -0x80 {
      if b >= 0 { ProductBounds(a, b, -0x80, 0x7F, 0x7F); } else { ProductBounds(a, -b, -0x80, 0x7F, 0x7F); }
      assert a * -b == -(a * b);
    } else if a > -0x80 {
      assert a * -0x80 < 0x4000;
    }
  }

  /** FMULS leaves exactly twice the signed product unless both operands are -1.0 (0x80). */
  lemma FmulsExact(m: State, d: Reg, r: Reg)
    ensures
      var m', product := ExecuteArithmetic(m, Fmuls(d, r)), Times(Signed8(m.r[d]), Signed8(m.r[r]));
      && (Signed16(R1R0(m')) == 2 * product <==> !(m.r[d] == 0x80 && m.r[r] == 0x80))
      && (m.r[d] == 0x80 && m.r[r] == 0x80 ==> R1R0(m') == 0x8000)
      && m'.sreg.z == (product == 0) && m'.sreg.c == (product < 0 || product == 0x4000)
  {
    hide Product, R1R0, Times;
    var a, b := Signed8(m.r[d]), Signed8(m.r[r]);
    LargestSignedProduct(a, b);
    ProductLands(m, 2 * Times(a, b));
    WrapNear(2 * Times(a, b));
  }

  /** FMULSU leaves exactly twice the product when that fits 16 signed bits; otherwise it is off by 65536. */
  lemma FmulsuExact(m: State, d: Reg, r: Reg)
    ensures
      var m', product := ExecuteArithmetic(m, Fmulsu(d, r)), Times(Signed8(m.r[d]), m.r[r]);
      && (Signed16(R1R0(m')) == 2 * product <==> -0x4000 <= product < 0x4000)
      && (product >= 0x4000 ==> Signed16(R1R0(m')) == 2 * product - 0x1_0000)
      && (product < -0x4000 ==> Signed16(R1R0(m')) == 2 * product + 0x1_0000)
      && m'.sreg.c == (Signed16(R1R0(m')) < 0) && m'.sreg.z == (R1R0(m') == 0)
  {
    hide Product, R1R0, Times;
    ProductBounds(Signed8(m.r[d]), m.r[r], -0x80, 0x7F, 0xFF);
    ProductLands(m, 2 * Times(Signed8(m.r[d]), m.r[r]));
    WrapNear(2 * Times(Signed8(m.r[d]), m.r[r]));
  }

  // ------------------------------------------------------------------ negation of any length

  /** SBCI 0xFF on the complements of the bytes. */
  function NegRest(xs: seq<Byte>, f: Sreg): Chain {
    if xs == [] then Chain([], f)
    else
      var o := Alu.Sbc(Alu.Com(xs[0], f).value, 0xFF, f);
      var rest := NegRest(xs[1..], o.sreg);
      Chain([o.value] + rest.bytes, rest.sreg)
  }

  /** The compiler's negation: COM on all bytes but the lowest, NEG on that one, SBCI 0xFF on the others. */
  function NegChain(xs: seq<Byte>, f: Sreg): Chain
    requires xs != []
  {
    var o := Alu.Neg(xs[0], f);
    var rest := NegRest(xs[1..], o.sreg);
    Chain([o.value] + rest.bytes, rest.sreg)
  }

  lemma ComplementLink(x: Byte, f: Sreg)
    ensures
      var o, s := Alu.Sbc(Alu.Com(x, f).value, 0xFF, f), Alu.Sbc(0, x, f);
      o.value == s.value && o.sreg.c == s.sreg.c
  {
  }

  lemma {:induction false} NegRestSubtracts(xs: seq<Byte>, f: Sreg, g: Sreg)
    requires f.c == g.c
    ensures
      var r, s := NegRest(xs, f), SbcChain(Zeros(|xs|), xs, g);
      r.bytes == s.bytes && r.sreg.c == s.sreg.c
  {
    hide Alu.Sbc;
    if xs != [] {
      ComplementLink(xs[0], f);
      SameBorrowSameByte(0, xs[0], f, g);
      assert Zeros(|xs|)[1..] == Zeros(|xs| - 1);
      NegRestSubtracts(xs[1..], Alu.Sbc(Alu.Com(xs[0], f).value, 0xFF, f).sreg, Alu.Sbc(0, xs[0], g).sreg);
    }
  }

  lemma SameBorrowSameByte(a: Byte, b: Byte, f: Sreg, g: Sreg)
    requires f.c == g.c
    ensures Alu.Sbc(a, b, f).value == Alu.Sbc(a, b, g).value && Alu.Sbc(a, b, f).sreg.c == Alu.Sbc(a, b, g).sreg.c
  {
  }

  lemma {:induction false} ValOfZeros(n: nat)
    ensures Val(Zeros(n)) == 0
  {
    if n > 0 {
      assert Zeros(n)[1..] == Zeros(n - 1);
      ValOfZeros(n - 1);
    }
  }

  /** The result is -x modulo 256^n, and C says that x is not zero. */
  lemma NegChainExact(xs: seq<Byte>, f: Sreg)
    requires xs != []
    ensures
      var r := NegChain(xs, f);
      && |r.bytes| == |xs|
      && Val(r.bytes) == (if Val(xs) == 0 then 0 else Pow256(|xs|) - Val(xs))
      && r.sreg.c == (Val(xs) != 0)
  {
    hide Alu.Sbc;
    var zeros := Zeros(|xs|);
    ValOfZeros(|xs|);
    assert zeros[1..] == Zeros(|xs| - 1);
    assert Alu.Neg(xs[0], f) == Alu.Sub(zeros[0], xs[0], f);
    NegRestSubtracts(xs[1..], Alu.Neg(xs[0], f).sreg, Alu.Neg(xs[0], f).sreg);
    SubChainExact(zeros, xs, f);
  }

  // ------------------------------------------------------------------ logic instructions and SREG

  lemma BitIsTop(x: Byte)
    ensures Bit(x, 7) <==> x >= 0x80
  {
    assert Bit(x, 7) == Bit(x / 2, 6) == Bit(x / 2 / 2, 5) == Bit(x / 2 / 2 / 2, 4);
    assert Bit(x / 2 / 2 / 2, 4) == Bit(x / 2 / 2 / 2 / 2, 3) == Bit(x / 2 / 2 / 2 / 2 / 2, 2);
    assert Bit(x / 2 / 2 / 2 / 2 / 2, 2) == Bit(x / 2 / 2 / 2 / 2 / 2 / 2, 1);
  }

  lemma BitwiseMeaning(op: BitOp, a: Byte, b: Byte)
    ensures forall k: nat | k < 8 :: Bit(Bitwise(op, a, b), k) == Apply(op, Bit(a, k), Bit(b, k))
    ensures Bitwise(op, a, b) >= 0x80 <==> Apply(op, a >= 0x80, b >= 0x80)
  {
    forall k: nat | k < 8 {
      BitOfZip(op, a, b, 8, k);
    }
    BitIsTop(a);
    BitIsTop(b);
    BitIsTop(Bitwise(op, a, b));
  }

  /** The five logic instructions: the operation and its operands. */
  function LogicOperands(m: State, ins: LogicIns): Option<(BitOp, Reg, Byte)> {
    match ins
    case And(d, r) => Some((AndOp, d, m.r[r]))
    case Andi(d, k) => Some((AndOp, d, k))
    case Or(d, r) => Some((OrOp, d, m.r[r]))
    case Ori(d, k) => Some((OrOp, d, k))
    case Eor(d, r) => Some((XorOp, d, m.r[r]))
    case _ => None
  }

  /**
   AND, ANDI, OR, ORI and EOR combine the operands bit by bit. With `negative` for the combination of
   the operands' top bits, S is N xor V exactly when the old N was clear or the result is negative,
   N is the sign of the result under the same condition, and C is kept exactly when it was clear.
   */
  lemma LogicExactly(m: State, ins: LogicIns)
    requires LogicOperands(m, ins).Some?
    ensures
      var (op, d, b) := LogicOperands(m, ins).value;
      var m', f, negative := ExecuteLogic(m, ins), m.sreg, Apply(op, m.r[d] >= 0x80, b >= 0x80);
      var g := m'.sreg;
      && (forall k: nat | k < 8 :: Bit(m'.r[d], k) == Apply(op, Bit(m.r[d], k), Bit(b, k)))
      && m' == m.(r := m.r[d := m'.r[d]], sreg := g)
      && g.z == (m'.r[d] == 0) && g.s == negative && !g.v && !g.c
      && g.h == f.h && g.t == f.t && g.i == f.i
      && (g.s == (g.n != g.v) <==> !f.n || negative)
      && (g.n == negative <==> !f.n || negative)
      && (g.c == f.c <==> !f.c)
  {
    hide Bit, Apply, Bitwise;
    var (op, d, b) := LogicOperands(m, ins).value;
    BitwiseMeaning(op, m.r[d], b);
    var m' := ExecuteLogic(m, ins);
    assert m' == PutOut(m, d, LogicOut(Bitwise(op, m.r[d], b), m.sreg));
  }

  /** SWAP exchanges bits k and k + 4 and undoes itself; SREG and the other registers are kept. */
  lemma SwapExchanges(m: State, d: Reg)
    ensures
      var m' := ExecuteLogic(m, Swap(d));
      && m' == m.(r := m.r[d := m'.r[d]])
      && m'.r[d] / 16 == m.r[d] % 16 && m'.r[d] % 16 == m.r[d] / 16
      && ExecuteLogic(m', Swap(d)) == m
  {
    var m' := ExecuteLogic(m, Swap(d));
    assert m'.r[d] == m.r[d] % 16 * 16 + m.r[d] / 16;
    assert m.r[d] == m.r[d] / 16 * 16 + m.r[d] % 16;
    assert m'.r[d := m.r[d]] == m.r;
  }

  /** COM complements: the sum with the old value is 0xFF, and COM again gives it back. */
  lemma ComComplements(m: State, d: Reg)
    ensures
      var m' := ExecuteLogic(m, LogicIns.Com(d));
      && m'.r[d] as int + m.r[d] as int == 0xFF && m'.sreg.c && !m'.sreg.v
      && m'.sreg.s == (m.r[d] < 0x80) && m'.sreg.n == m'.sreg.s && m'.sreg.z == (m.r[d] == 0xFF)
      && ExecuteLogic(m', LogicIns.Com(d)).r == m.r
  {
    var m' := ExecuteLogic(m, LogicIns.Com(d));
    assert m'.r[d := m.r[d]] == m.r;
  }

  /**
   LSR, ROR and ASR lose no bit: twice the result plus the new carry is the old value (with the old
   carry above it for ROR, signed for ASR). S is the bit shifted out and V is N xor C.
   */
  lemma ShiftsExact(m: State, d: Reg, ins: LogicIns)
    requires ins == LogicIns.Lsr(d) || ins == LogicIns.Ror(d) || ins == LogicIns.Asr(d)
    ensures
      var m', x: int := ExecuteLogic(m, ins), m.r[d];
      var y, g: Sreg := m'.r[d] as int, m'.sreg;
      && m' == m.(r := m.r[d := m'.r[d]], sreg := g)
      && (ins.Lsr? ==> 2 * y + Flag01(g.c) == x && !g.n)
      && (ins.Ror? ==> 2 * y + Flag01(g.c) == x + 0x100 * Flag01(m.sreg.c) && g.n == m.sreg.c)
      && (ins.Asr? ==> 2 * Signed8(m'.r[d]) + Flag01(g.c) == Signed8(m.r[d]) && g.n == (x >= 0x80))
      && g.s == g.c && g.v == (g.n != g.c) && g.z == (y == 0)
      && g.h == m.sreg.h && g.t == m.sreg.t && g.i == m.sreg.i
  {
    HalvesSigned(m.r[d]);
    assert 2 * (m.r[d] / 2) + m.r[d] % 2 == m.r[d];
  }

  lemma HalvesSigned(x: Byte)
    ensures
      var half: Byte := (Signed8(x) / 2) % 0x100;
      2 * Signed8(half) + x % 2 == Signed8(x) && (half >= 0x80 <==> x >= 0x80)
  {
    var h := Signed8(x) / 2;
    assert 2 * h + x % 2 == Signed8(x);
    assert h % 0x100 == if h < 0 then h + 0x100 else h;
  }
}
