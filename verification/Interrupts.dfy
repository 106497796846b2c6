/**
 The pending mask of the interrupt controller. Vector v (1..32) occupies bit v - 1; the mask is
 proved to stand for a set of vectors and the selection to be the minimum of that set.
 */
module Interrupts {
  import opened Bits

  type Mask = x: int | 0 <= x < 0x1_0000_0000
  type Vector = v: int | 1 <= v <= 32 witness 1

  const TIMER0_COMPA: Vector := 15
  const TIMER0_COMPB: Vector := 16
  const TIMER0_OVF: Vector := 17
  const USART_RX: Vector := 19
  const USART_UDRE: Vector := 20
  const USART_TX: Vector := 21

  predicate Raised(pending: Mask, v: Vector) {
    Bit(pending, v - 1)
  }

  /** `pending |= 1 << (v - 1)`, or the same with `&= ~` when `on` is false. */
  function Put(pending: Mask, v: Vector, on: bool): (r: Mask)
    ensures forall u: Vector {:trigger Raised(r, u)} :: Raised(r, u) == if u == v then on else Raised(pending, u)
  {
    PutFits(pending, v, on);
    WithBit(pending, v - 1, on)
  }

  lemma PutFits(pending: Mask, v: Vector, on: bool)
    ensures WithBit(pending, v - 1, on) < 0x1_0000_0000
    ensures forall j: nat :: Bit(WithBit(pending, v - 1, on), j) == if j == v - 1 then on else Bit(pending, j)
  {
    Pow2Values();
    WithBitFits(pending, v - 1, on, 32);
    forall j: nat { BitOfWithBit(pending, v - 1, on, j); }
  }

  function Raise(pending: Mask, v: Vector): (r: Mask)
    ensures forall u: Vector {:trigger Raised(r, u)} :: Raised(r, u) == (u == v || Raised(pending, u))
  {
    Put(pending, v, true)
  }

  function Clear(pending: Mask, v: Vector): (r: Mask)
    ensures forall u: Vector {:trigger Raised(r, u)} :: Raised(r, u) == (u != v && Raised(pending, u))
  {
    Put(pending, v, false)
  }

  function RaiseAll(pending: Mask, vs: seq<Vector>): (r: Mask)
    ensures forall u: Vector {:trigger Raised(r, u)} :: Raised(r, u) == (u in vs || Raised(pending, u))
    decreases |vs|
  {
    if vs == [] then pending else RaiseAll(Raise(pending, vs[0]), vs[1..])
  }

  lemma RaiseAllSplits(pending: Mask, a: seq<Vector>, v: Vector)
    ensures RaiseAll(pending, a + [v]) == Raise(RaiseAll(pending, a), v)
    decreases |a|
  {
    if a == [] {
      assert a + [v] == [v];
    } else {
      assert (a + [v])[1..] == a[1..] + [v];
      RaiseAllSplits(Raise(pending, a[0]), a[1..], v);
    }
  }

  /** The number of trailing zeros. */
  function Ctz(n: nat): nat
    requires n > 0
  {
    if n % 2 == 1 then 0 else 1 + Ctz(n / 2)
  }

  /** Vector number with the highest priority, or 0. */
  function HighestPending(pending: Mask): nat {
    if pending == 0 then 0 else Ctz(pending) + 1
  }

  // ------------------------------------------------------------------ refinement of a set

  /** The set of vectors that a mask stands for. */
  ghost function Vectors(pending: Mask): (r: set<Vector>)
    ensures forall v: Vector :: v in r <==> Raised(pending, v)
  {
    set v: Vector | 1 <= v <= 32 && Raised(pending, v)
  }

  lemma {:induction false} CtzIsLowestBit(n: nat, w: nat)
    requires 0 < n < Pow2(w)
    ensures Ctz(n) < w && Bit(n, Ctz(n))
    ensures forall j: nat :: j < Ctz(n) ==> !Bit(n, j)
  {
    if n % 2 == 0 {
      CtzIsLowestBit(n / 2, w - 1);
      forall j: nat | j < Ctz(n)
        ensures !Bit(n, j)
      {
        assert j > 0 ==> Bit(n, j) == Bit(n / 2, j - 1);
      }
    }
  }

  /** No bit set means no vector: the empty mask is the empty set. */
  lemma EmptyMask(pending: Mask)
    ensures pending == 0 <==> Vectors(pending) == {}
  {
    if pending == 0 {
      forall v: Vector
        ensures !Raised(pending, v)
      {
        BitOfZero(v - 1);
      }
    } else {
      Pow2Values();
      CtzIsLowestBit(pending, 32);
      var v: Vector := Ctz(pending) + 1;
      assert Raised(pending, v);
      assert v in Vectors(pending);
    }
  }

  /** The controller picks the least pending vector, and picks none only when none is pending. */
  lemma HighestIsMinimum(pending: Mask)
    ensures HighestPending(pending) == 0 <==> Vectors(pending) == {}
    ensures HighestPending(pending) <= 32
    ensures
      HighestPending(pending) != 0 ==>
        && HighestPending(pending) in Vectors(pending)
        && forall v: Vector :: v in Vectors(pending) ==> HighestPending(pending) <= v
  {
    EmptyMask(pending);
    if pending != 0 {
      Pow2Values();
      CtzIsLowestBit(pending, 32);
      forall v: Vector | v in Vectors(pending)
        ensures HighestPending(pending) <= v
      {
        assert Bit(pending, v - 1);
      }
      var top: Vector := HighestPending(pending);
      assert Raised(pending, top);
    }
  }

  /** Clearing one bit removes one vector, and raising one adds it: the masks refine sets. */
  lemma MaskRefinesSet(pending: Mask, v: Vector)
    ensures Vectors(Raise(pending, v)) == Vectors(pending) + {v}
    ensures Vectors(Clear(pending, v)) == Vectors(pending) - {v}
    ensures Raise(Raise(pending, v), v) == Raise(pending, v)
  {
    var once, twice := Raise(pending, v), Raise(Raise(pending, v), v);
    assert once == WithBit(pending, v - 1, true) && twice == WithBit(once, v - 1, true);
    forall j: nat
      ensures Bit(once, j) == Bit(twice, j)
    {
      BitOfWithBit(pending, v - 1, true, j);
      BitOfWithBit(once, v - 1, true, j);
    }
    BitsDetermine(once, twice);
  }

  // ------------------------------------------------------------------ the controller

  class InterruptController {
    var pending: Mask

    constructor ()
      ensures pending == 0
    {
      pending := 0;
    }

    method Reset()
      modifies this
      ensures pending == 0 && Vectors(pending) == {}
    {
      pending := 0;
      EmptyMask(pending);
    }

    method RaiseVector(v: Vector)
      modifies this
      ensures pending == Raise(old(pending), v)
      ensures Vectors(pending) == old(Vectors(pending)) + {v}
    {
      PutFits(pending, v, true);
      pending := WithBit(pending, v - 1, true);
      MaskRefinesSet(old(pending), v);
    }

    method ClearVector(v: Vector)
      modifies this
      ensures pending == Clear(old(pending), v)
      ensures Vectors(pending) == old(Vectors(pending)) - {v}
    {
      PutFits(pending, v, false);
      pending := WithBit(pending, v - 1, false);
      MaskRefinesSet(old(pending), v);
    }

    method Highest() returns (v: nat)
      ensures v == HighestPending(pending)
      ensures v == 0 <==> Vectors(pending) == {}
      ensures v != 0 ==> v <= 32 && v in Vectors(pending) && forall u: Vector :: u in Vectors(pending) ==> v <= u
    {
      HighestIsMinimum(pending);
      if pending == 0 {
        return 0;
      }
      v := Ctz(pending) + 1;
    }
  }
}
