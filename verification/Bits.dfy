/** Fixed-width integers and single-bit access, shared by every module. */
module Bits {
  type Byte = x: int | 0 <= x < 0x100
  type Word = x: int | 0 <= x < 0x1_0000

  datatype Option<+T> = None | Some(value: T)

  function Flag01(b: bool): (r: int)
    ensures 0 <= r <= 1
  {
    if b then 1 else 0
  }

  /** `(n >> k) & 1`. */
  predicate Bit(n: nat, k: nat) {
    if k == 0 then n % 2 == 1 else Bit(n / 2, k - 1)
  }

  /** `n | (1 << k)` when b holds and `n & ~(1 << k)` otherwise. */
  function WithBit(n: nat, k: nat, b: bool): nat {
    if k == 0 then n - n % 2 + Flag01(b) else 2 * WithBit(n / 2, k - 1, b) + n % 2
  }

  /** `a & ~b`. */
  function AndNot(a: nat, b: nat): (r: nat)
    ensures r <= a
  {
    if a == 0 then 0
    else 2 * AndNot(a / 2, b / 2) + (if b % 2 == 1 then 0 else a % 2)
  }

  function Pow2(w: nat): (r: nat)
    ensures r > 0
  {
    if w == 0 then 1 else 2 * Pow2(w - 1)
  }

  lemma {:induction false} BitOfWithBit(n: nat, k: nat, b: bool, j: nat)
    ensures Bit(WithBit(n, k, b), j) == if j == k then b else Bit(n, j)
  {
    var w := WithBit(n, k, b);
    if k == 0 {
      assert w / 2 == n / 2;
    } else {
      assert w / 2 == WithBit(n / 2, k - 1, b) && w % 2 == n % 2;
      if j > 0 {
        BitOfWithBit(n / 2, k - 1, b, j - 1);
      }
    }
  }

  lemma {:induction false} WithBitFits(n: nat, k: nat, b: bool, w: nat)
    requires k < w && n < Pow2(w)
    ensures WithBit(n, k, b) < Pow2(w)
  {
    if k > 0 {
      WithBitFits(n / 2, k - 1, b, w - 1);
    }
  }

  lemma {:induction false} BitOfAndNot(a: nat, b: nat, j: nat)
    ensures Bit(AndNot(a, b), j) == (Bit(a, j) && !Bit(b, j))
  {
    if a == 0 {
      BitOfZero(j);
    } else {
      var rest, low := AndNot(a / 2, b / 2), if b % 2 == 1 then 0 else a % 2;
      assert AndNot(a, b) == 2 * rest + low;
      assert (2 * rest + low) / 2 == rest && (2 * rest + low) % 2 == low;
      if j > 0 {
        BitOfAndNot(a / 2, b / 2, j - 1);
      }
    }
  }

  lemma {:induction false} BitOfZero(j: nat)
    ensures !Bit(0, j)
  {
    if j > 0 {
      BitOfZero(j - 1);
    }
  }

  /** Numbers with the same bits are equal. */
  lemma {:induction false} BitsDetermine(a: nat, b: nat)
    requires forall j: nat :: Bit(a, j) == Bit(b, j)
    ensures a == b
  {
    assert Bit(a, 0) == Bit(b, 0);
    if a > 0 || b > 0 {
      forall j: nat
        ensures Bit(a / 2, j) == Bit(b / 2, j)
      {
        assert Bit(a, j + 1) == Bit(b, j + 1);
      }
      BitsDetermine(a / 2, b / 2);
    }
  }

  /** An operation on single bits, applied to each of the w low bits of two numbers. */
  datatype BitOp = AndOp | OrOp | XorOp

  predicate Apply(op: BitOp, p: bool, q: bool) {
    match op
    case AndOp => p && q
    case OrOp => p || q
    case XorOp => p != q
  }

  function Zip(op: BitOp, a: nat, b: nat, w: nat): (r: nat)
    ensures r < Pow2(w)
  {
    if w == 0 then 0
    else 2 * Zip(op, a / 2, b / 2, w - 1) + Flag01(Apply(op, a % 2 == 1, b % 2 == 1))
  }

  lemma {:induction false} BitOfZip(op: BitOp, a: nat, b: nat, w: nat, j: nat)
    requires j < w
    ensures Bit(Zip(op, a, b, w), j) == Apply(op, Bit(a, j), Bit(b, j))
  {
    var rest, low := Zip(op, a / 2, b / 2, w - 1), Flag01(Apply(op, a % 2 == 1, b % 2 == 1));
    assert (2 * rest + low) / 2 == rest && (2 * rest + low) % 2 == low;
    if j > 0 {
      BitOfZip(op, a / 2, b / 2, w - 1, j - 1);
    }
  }

  lemma Pow2Values()
    ensures Pow2(8) == 0x100 && Pow2(32) == 0x1_0000_0000
  {
    assert Pow2(4) == 16;
    assert Pow2(8) == 0x100;
    assert Pow2(12) == 0x1000;
    assert Pow2(16) == 0x1_0000;
    assert Pow2(20) == 0x10_0000;
    assert Pow2(24) == 0x100_0000;
    assert Pow2(28) == 0x1000_0000;
    assert Pow2(32) == 0x1_0000_0000;
  }

  /** Setting or clearing one of the eight bits of a byte leaves a byte. */
  function SetBit8(n: Byte, k: nat, b: bool): (r: Byte)
    requires k < 8
    ensures r == WithBit(n, k, b)
    ensures forall j: nat {:trigger Bit(r, j)} :: Bit(r, j) == if j == k then b else Bit(n, j)
  {
    Pow2Values();
    WithBitFits(n, k, b, 8);
    assert forall j: nat :: Bit(WithBit(n, k, b), j) == if j == k then b else Bit(n, j) by {
      forall j: nat { BitOfWithBit(n, k, b, j); }
    }
    WithBit(n, k, b)
  }

  /** Two's complement reading of a byte. */
  function Signed8(x: Byte): int {
    if x < 0x80 then x else x - 0x100
  }

  function Wrap16(x: int): Word {
    x % 0x1_0000
  }

  lemma MulDistributes(a: int, b: int, p: int)
    ensures (a + b) * p == a * p + b * p
    ensures (a - b) * p == a * p - b * p
  {
  }

  lemma ModUnique(a: int, m: nat, q: int, r: nat)
    requires m > 0 && a == q * m + r && r < m
    ensures a % m == r && a / m == q
  {
    var q', r' := a / m, a % m;
    assert a == m * q' + r';
    assert m * (q - q') == r' - r;
    NoSmallMultiple(m, q - q');
  }

  lemma NoSmallMultiple(m: int, k: int)
    requires m > 0 && -m < m * k < m
    ensures k == 0
  {
    MulSteps(m, k);
  }

  lemma MulSteps(m: int, k: int)
    requires m > 0
    ensures k >= 1 ==> m * k >= m
    ensures k <= -1 ==> m * k <= -m
  {
    if k >= 1 {
      assert m * k >= m * 1;
    }
    if k <= -1 {
      assert m * k <= m * -1;
    }
  }
}
