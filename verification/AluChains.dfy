/**
 Multi-byte arithmetic: what a chain of byte instructions computes on numbers of any length.
 Numbers are little-endian byte sequences. Instructions placed between the links of a chain
 (loads, stores, moves) leave SREG alone, so length is not tied to the 32 registers.
 */
module AluChains {
  import opened Bits
  import opened Alu

  /** The unsigned number that a byte sequence stands for. */
  ghost function Val(xs: seq<Byte>): nat {
    if xs == [] then 0 else xs[0] + 0x100 * Val(xs[1..])
  }

  /** The two's complement number that a byte sequence stands for. */
  ghost function SVal(xs: seq<Byte>): int
    requires xs != []
  {
    if |xs| == 1 then Signed8(xs[0]) else xs[0] + 0x100 * SVal(xs[1..])
  }

  ghost function Pow256(n: nat): (r: nat)
    ensures r > 0
  {
    if n == 0 then 1 else 0x100 * Pow256(n - 1)
  }

  /** Half of 256^n: the weight of the sign. */
  ghost function Half(n: nat): (r: int)
    requires n > 0
    ensures r > 0 && 2 * r == Pow256(n)
  {
    if n == 1 then 0x80 else 0x100 * Half(n - 1)
  }

  lemma {:induction false} ValBounds(xs: seq<Byte>)
    ensures Val(xs) < Pow256(|xs|)
    ensures xs != [] ==> -Half(|xs|) <= SVal(xs) < Half(|xs|)
    ensures xs != [] ==> SVal(xs) == Val(xs) - (if Val(xs) >= Half(|xs|) then Pow256(|xs|) else 0)
  {
    if |xs| > 1 {
      ValBounds(xs[1..]);
    }
  }

  /** Equal length and equal value mean equal bytes. */
  lemma {:induction false} ValInjective(xs: seq<Byte>, ys: seq<Byte>)
    requires |xs| == |ys| && Val(xs) == Val(ys)
    ensures xs == ys
  {
    if xs != [] {
      assert xs[0] == Val(xs) % 0x100 && ys[0] == Val(ys) % 0x100;
      ValInjective(xs[1..], ys[1..]);
      assert xs == [xs[0]] + xs[1..] && ys == [ys[0]] + ys[1..];
    }
  }

  datatype Chain = Chain(bytes: seq<Byte>, sreg: Sreg)

  // ------------------------------------------------------------------ additions and subtractions

  function AdcChain(xs: seq<Byte>, ys: seq<Byte>, f: Sreg): (r: Chain)
    requires |xs| == |ys|
  {
    if xs == [] then Chain([], f)
    else
      var o := Adc(xs[0], ys[0], f);
      var rest := AdcChain(xs[1..], ys[1..], o.sreg);
      Chain([o.value] + rest.bytes, rest.sreg)
  }

  /** ADD on the lowest byte, ADC on the others. */
  function AddChain(xs: seq<Byte>, ys: seq<Byte>, f: Sreg): Chain
    requires |xs| == |ys| > 0
  {
    var o := Add(xs[0], ys[0], f);
    var rest := AdcChain(xs[1..], ys[1..], o.sreg);
    Chain([o.value] + rest.bytes, rest.sreg)
  }

  function SbcChain(xs: seq<Byte>, ys: seq<Byte>, f: Sreg): (r: Chain)
    requires |xs| == |ys|
  {
    if xs == [] then Chain([], f)
    else
      var o := Sbc(xs[0], ys[0], f);
      var rest := SbcChain(xs[1..], ys[1..], o.sreg);
      Chain([o.value] + rest.bytes, rest.sreg)
  }

  /** SUB on the lowest byte, SBC on the others. */
  function SubChain(xs: seq<Byte>, ys: seq<Byte>, f: Sreg): Chain
    requires |xs| == |ys| > 0
  {
    var o := Sub(xs[0], ys[0], f);
    var rest := SbcChain(xs[1..], ys[1..], o.sreg);
    Chain([o.value] + rest.bytes, rest.sreg)
  }

  /** CPC on every byte. */
  function CpcChain(xs: seq<Byte>, ys: seq<Byte>, f: Sreg): Sreg
    requires |xs| == |ys|
  {
    if xs == [] then f else CpcChain(xs[1..], ys[1..], Sbc(xs[0], ys[0], f).sreg)
  }

  /** CP on the lowest byte, CPC on the others. */
  function CompareChain(xs: seq<Byte>, ys: seq<Byte>, f: Sreg): Sreg
    requires |xs| == |ys| > 0
  {
    CpcChain(xs[1..], ys[1..], Sub(xs[0], ys[0], f).sreg)
  }

  /** What the flags say about an exact signed result of n bytes. */
  ghost predicate FlagsOf(f: Sreg, bytes: seq<Byte>, exact: int)
    requires bytes != []
  {
    && f.n == (Val(bytes) >= Half(|bytes|))
    && f.s == (exact < 0)
    && f.v == !(-Half(|bytes|) <= exact < Half(|bytes|))
  }

  /** One link: the exact unsigned and signed sums in terms of the byte, the carry and the flags. */
  lemma SumLink(rd: Byte, rr: Byte, f: Sreg)
    ensures
      var o := Adc(rd, rr, f);
      && o.value + 0x100 * Flag01(o.sreg.c) == rd + rr + Flag01(f.c)
      && o.sreg.z == (f.z && o.value == 0) && o.sreg.t == f.t && o.sreg.i == f.i
  {
  }

  lemma DifferenceLink(rd: Byte, rr: Byte, f: Sreg)
    ensures
      var o := Sbc(rd, rr, f);
      && o.value - 0x100 * Flag01(o.sreg.c) == rd - rr - Flag01(f.c)
      && o.sreg.z == (f.z && o.value == 0) && o.sreg.t == f.t && o.sreg.i == f.i
  {
  }

  lemma {:induction false} AdcChainValue(xs: seq<Byte>, ys: seq<Byte>, f: Sreg)
    requires |xs| == |ys|
    ensures
      var r := AdcChain(xs, ys, f);
      && |r.bytes| == |xs|
      && Val(r.bytes) + (if r.sreg.c then Pow256(|xs|) else 0) == Val(xs) + Val(ys) + Flag01(f.c)
      && r.sreg.z == (f.z && Val(r.bytes) == 0)
      && r.sreg.t == f.t && r.sreg.i == f.i
  {
    if xs != [] {
      var o := Adc(xs[0], ys[0], f);
      var rest := AdcChain(xs[1..], ys[1..], o.sreg);
      AdcChainValue(xs[1..], ys[1..], o.sreg);
      assert ([o.value] + rest.bytes)[1..] == rest.bytes;
      SumLink(xs[0], ys[0], f);
    }
  }

  lemma {:induction false} SbcChainValue(xs: seq<Byte>, ys: seq<Byte>, f: Sreg)
    requires |xs| == |ys|
    ensures
      var r := SbcChain(xs, ys, f);
      && |r.bytes| == |xs|
      && Val(r.bytes) - (if r.sreg.c then Pow256(|xs|) else 0) == Val(xs) - Val(ys) - Flag01(f.c)
      && r.sreg.z == (f.z && Val(r.bytes) == 0)
      && r.sreg.t == f.t && r.sreg.i == f.i
  {
    if xs != [] {
      var o := Sbc(xs[0], ys[0], f);
      var rest := SbcChain(xs[1..], ys[1..], o.sreg);
      SbcChainValue(xs[1..], ys[1..], o.sreg);
      assert ([o.value] + rest.bytes)[1..] == rest.bytes;
      DifferenceLink(xs[0], ys[0], f);
    }
  }

  /** Prefixing a byte to a signed result keeps the meaning of N, V and S. */
  lemma FlagsOfPrefix(f: Sreg, b: Byte, rest: seq<Byte>, exact: int)
    requires rest != [] && FlagsOf(f, rest, exact)
    ensures FlagsOf(f, [b] + rest, b + 0x100 * exact)
  {
    assert ([b] + rest)[1..] == rest;
  }

  lemma {:induction false} AdcChainSigned(xs: seq<Byte>, ys: seq<Byte>, f: Sreg)
    requires |xs| == |ys| > 0
    ensures
      var r := AdcChain(xs, ys, f);
      r.bytes != [] && FlagsOf(r.sreg, r.bytes, SVal(xs) + SVal(ys) + Flag01(f.c))
  {
    var o := Adc(xs[0], ys[0], f);
    var rest := AdcChain(xs[1..], ys[1..], o.sreg);
    if |xs| > 1 {
      AdcChainSigned(xs[1..], ys[1..], o.sreg);
      FlagsOfPrefix(rest.sreg, o.value, rest.bytes, SVal(xs[1..]) + SVal(ys[1..]) + Flag01(o.sreg.c));
      SumLink(xs[0], ys[0], f);
    } else {
      assert [o.value] + rest.bytes == [o.value];
      assert [o.value][1..] == [];
    }
  }

  lemma {:induction false} SbcChainSigned(xs: seq<Byte>, ys: seq<Byte>, f: Sreg)
    requires |xs| == |ys| > 0
    ensures
      var r := SbcChain(xs, ys, f);
      r.bytes != [] && FlagsOf(r.sreg, r.bytes, SVal(xs) - SVal(ys) - Flag01(f.c))
  {
    var o := Sbc(xs[0], ys[0], f);
    var rest := SbcChain(xs[1..], ys[1..], o.sreg);
    if |xs| > 1 {
      SbcChainSigned(xs[1..], ys[1..], o.sreg);
      FlagsOfPrefix(rest.sreg, o.value, rest.bytes, SVal(xs[1..]) - SVal(ys[1..]) - Flag01(o.sreg.c));
      DifferenceLink(xs[0], ys[0], f);
    } else {
      assert [o.value] + rest.bytes == [o.value];
      assert [o.value][1..] == [];
    }
  }

  lemma AddIsAdc(xs: seq<Byte>, ys: seq<Byte>, f: Sreg)
    requires |xs| == |ys| > 0
    ensures AddChain(xs, ys, f) == AdcChain(xs, ys, f.(c := false, z := true))
  {
    assert Add(xs[0], ys[0], f) == Adc(xs[0], ys[0], f.(c := false, z := true));
  }

  lemma SubIsSbc(xs: seq<Byte>, ys: seq<Byte>, f: Sreg)
    requires |xs| == |ys| > 0
    ensures SubChain(xs, ys, f) == SbcChain(xs, ys, f.(c := false, z := true))
  {
    assert Sub(xs[0], ys[0], f) == Sbc(xs[0], ys[0], f.(c := false, z := true));
  }

  /**
   The n-byte sum modulo 256^n. C is the carry out, Z says that all n bytes are zero, S is the sign
   of the true signed sum and V says that it does not fit n bytes.
   */
  ghost predicate IsSum(xs: seq<Byte>, ys: seq<Byte>, f: Sreg, r: Chain)
    requires |xs| == |ys| > 0
  {
    && |r.bytes| == |xs|
    && Val(r.bytes) + (if r.sreg.c then Pow256(|xs|) else 0) == Val(xs) + Val(ys)
    && Val(r.bytes) < Pow256(|xs|)
    && r.sreg.c == (Val(xs) + Val(ys) >= Pow256(|xs|))
    && r.sreg.z == (Val(r.bytes) == 0)
    && r.sreg.t == f.t && r.sreg.i == f.i
    && FlagsOf(r.sreg, r.bytes, SVal(xs) + SVal(ys))
  }

  /** The n-byte difference modulo 256^n, with C the borrow and Z equality. */
  ghost predicate IsDifference(xs: seq<Byte>, ys: seq<Byte>, f: Sreg, r: Chain)
    requires |xs| == |ys| > 0
  {
    && |r.bytes| == |xs|
    && Val(r.bytes) - (if r.sreg.c then Pow256(|xs|) else 0) == Val(xs) - Val(ys)
    && Val(r.bytes) < Pow256(|xs|)
    && r.sreg.c == (Val(xs) < Val(ys))
    && r.sreg.z == (Val(xs) == Val(ys))
    && r.sreg.t == f.t && r.sreg.i == f.i
    && FlagsOf(r.sreg, r.bytes, SVal(xs) - SVal(ys))
  }

  /** ADD;ADC* adds numbers of any length. */
  lemma AddChainExact(xs: seq<Byte>, ys: seq<Byte>, f: Sreg)
    requires |xs| == |ys| > 0
    ensures IsSum(xs, ys, f, AddChain(xs, ys, f))
  {
    AddIsAdc(xs, ys, f);
    AdcChainValue(xs, ys, f.(c := false, z := true));
    AdcChainSigned(xs, ys, f.(c := false, z := true));
    ValBounds(AddChain(xs, ys, f).bytes);
  }

  /** SUB;SBC* subtracts numbers of any length. */
  lemma SubChainExact(xs: seq<Byte>, ys: seq<Byte>, f: Sreg)
    requires |xs| == |ys| > 0
    ensures IsDifference(xs, ys, f, SubChain(xs, ys, f))
  {
    SubIsSbc(xs, ys, f);
    SbcChainValue(xs, ys, f.(c := false, z := true));
    SbcChainSigned(xs, ys, f.(c := false, z := true));
    ValBounds(SubChain(xs, ys, f).bytes);
    ValBounds(xs);
    ValBounds(ys);
  }

  lemma {:induction false} CpcIsSbcFlags(xs: seq<Byte>, ys: seq<Byte>, f: Sreg)
    requires |xs| == |ys|
    ensures CpcChain(xs, ys, f) == SbcChain(xs, ys, f).sreg
  {
    if xs != [] {
      CpcIsSbcFlags(xs[1..], ys[1..], Sbc(xs[0], ys[0], f).sreg);
    }
  }

  /**
   CP on the lowest byte followed by CPC on the rest decides the unsigned order in C, the signed
   order in S and equality in Z, whatever the flags were before.
   */
  lemma CompareChainDecides(xs: seq<Byte>, ys: seq<Byte>, f: Sreg)
    requires |xs| == |ys| > 0
    ensures
      var r := CompareChain(xs, ys, f);
      && r.c == (Val(xs) < Val(ys))
      && r.s == (SVal(xs) < SVal(ys))
      && r.z == (xs == ys)
  {
    CpcIsSbcFlags(xs[1..], ys[1..], Sub(xs[0], ys[0], f).sreg);
    SubChainExact(xs, ys, f);
    if Val(xs) == Val(ys) {
      ValInjective(xs, ys);
    }
  }

  lemma TwoBytes(bytes: seq<Byte>)
    requires |bytes| == 2
    ensures bytes == [bytes[0], bytes[1]]
    ensures Val(bytes) == Join(bytes[0], bytes[1])
    ensures SVal(bytes) == Signed16(Join(bytes[0], bytes[1]))
    ensures Pow256(2) == 0x1_0000 && Half(2) == 0x8000
  {
    var high := bytes[1..];
    assert high == [bytes[1]] && high[1..] == [];
    assert Val(high) == bytes[1] + 0x100 * Val(high[1..]);
    assert Pow256(1) == 0x100;
  }

  /** The flags that an exact two-byte result calls for, without sequences. */
  ghost predicate WordFacts(w: Word, g: Sreg, exact: int, signed: int, f: Sreg) {
    && w == exact + (if exact < 0 then 0x1_0000 else if exact >= 0x1_0000 then -0x1_0000 else 0)
    && g.c == (exact < 0 || exact >= 0x1_0000) && g.z == (w == 0) && g.n == (w >= 0x8000)
    && g.s == (signed < 0) && g.v == !(-0x8000 <= signed < 0x8000)
    && g.t == f.t && g.i == f.i
  }

  lemma WordFactsGiveFlags(w: Word, g: Sreg, exact: int, signed: int, f: Sreg)
    requires WordFacts(w, g, exact, signed, f)
    ensures WideFlags(w, exact < 0 || exact >= 0x1_0000, signed, f) == g.(h := f.h)
  {
  }

  lemma SumOfTwo(xs: seq<Byte>, ys: seq<Byte>, f: Sreg, r: Chain)
    requires |xs| == |ys| == 2 && IsSum(xs, ys, f, r)
    ensures |r.bytes| == 2
    ensures
      var x, y := Join(xs[0], xs[1]), Join(ys[0], ys[1]);
      WordFacts(Join(r.bytes[0], r.bytes[1]), r.sreg, x + y, Signed16(x) + Signed16(y), f)
  {
    TwoBytes(xs);
    TwoBytes(ys);
    TwoBytes(r.bytes);
  }

  lemma DifferenceOfTwo(xs: seq<Byte>, ys: seq<Byte>, f: Sreg, r: Chain)
    requires |xs| == |ys| == 2 && IsDifference(xs, ys, f, r)
    ensures |r.bytes| == 2
    ensures
      var x, y := Join(xs[0], xs[1]), Join(ys[0], ys[1]);
      WordFacts(Join(r.bytes[0], r.bytes[1]), r.sreg, x - y, Signed16(x) - Signed16(y), f)
  {
    TwoBytes(xs);
    TwoBytes(ys);
    TwoBytes(r.bytes);
  }

  lemma AdiwFromFacts(word: Word, k: Byte, w: Word, g: Sreg, f: Sreg)
    requires k < 64 && WordFacts(w, g, word + k, Signed16(word) + k, f)
    ensures Adiw(word, k, f) == WordResult(w, g.(h := f.h))
  {
    WordFactsGiveFlags(w, g, word + k, Signed16(word) + k, f);
    assert Wrap16(word + k) == w;
  }

  lemma SbiwFromFacts(word: Word, k: Byte, w: Word, g: Sreg, f: Sreg)
    requires k < 64 && WordFacts(w, g, word - k, Signed16(word) - k, f)
    ensures Sbiw(word, k, f) == WordResult(w, g.(h := f.h))
  {
    WordFactsGiveFlags(w, g, word - k, Signed16(word) - k, f);
    assert Wrap16(word - k) == w;
  }

  lemma ShortWord(k: Byte)
    requires k < 64
    ensures Join(k, 0) == k && Signed16(k) == k
  {
  }

  /** ADIW is the two-byte ADD;ADC on the pair and on S, V, N, Z and C. */
  lemma AdiwMatchesChain(xs: seq<Byte>, ys: seq<Byte>, f: Sreg)
    requires |xs| == |ys| == 2 && ys[0] < 64 && ys[1] == 0
    ensures
      var wide, chain := Adiw(Join(xs[0], xs[1]), ys[0], f), AddChain(xs, ys, f);
      chain.bytes == [Lo(wide.value), Hi(wide.value)] && wide.sreg == chain.sreg.(h := f.h)
  {
    hide AddChain, IsSum;
    var r := AddChain(xs, ys, f);
    AddChainExact(xs, ys, f);
    SumOfTwo(xs, ys, f, r);
    ShortWord(ys[0]);
    AdiwFromFacts(Join(xs[0], xs[1]), ys[0], Join(r.bytes[0], r.bytes[1]), r.sreg, f);
    JoinSplits(r.bytes[0], r.bytes[1]);
  }

  /** SBIW is the two-byte SUB;SBC on the pair and on S, V, N, Z and C. */
  lemma SbiwMatchesChain(xs: seq<Byte>, ys: seq<Byte>, f: Sreg)
    requires |xs| == |ys| == 2 && ys[0] < 64 && ys[1] == 0
    ensures
      var wide, chain := Sbiw(Join(xs[0], xs[1]), ys[0], f), SubChain(xs, ys, f);
      chain.bytes == [Lo(wide.value), Hi(wide.value)] && wide.sreg == chain.sreg.(h := f.h)
  {
    hide SubChain, IsDifference;
    var r := SubChain(xs, ys, f);
    SubChainExact(xs, ys, f);
    DifferenceOfTwo(xs, ys, f, r);
    ShortWord(ys[0]);
    SbiwFromFacts(Join(xs[0], xs[1]), ys[0], Join(r.bytes[0], r.bytes[1]), r.sreg, f);
    JoinSplits(r.bytes[0], r.bytes[1]);
  }

  // ------------------------------------------------------------------ shifts, from the top byte down

  /** ROR from the top byte down to the lowest. */
  function RorChain(xs: seq<Byte>, f: Sreg): Chain {
    if xs == [] then Chain([], f)
    else
      var high := RorChain(xs[1..], f);
      var o := Ror(xs[0], high.sreg);
      Chain([o.value] + high.bytes, o.sreg)
  }

  datatype TopShift = Logical | Arithmetic

  /** LSR or ASR on the top byte, then ROR down to the lowest. */
  function ShiftChain(kind: TopShift, xs: seq<Byte>, f: Sreg): Chain
    requires xs != []
  {
    if |xs| == 1 then
      var o := if kind.Logical? then Lsr(xs[0], f) else Asr(xs[0], f);
      Chain([o.value], o.sreg)
    else
      var high := ShiftChain(kind, xs[1..], f);
      var o := Ror(xs[0], high.sreg);
      Chain([o.value] + high.bytes, o.sreg)
  }

  lemma {:induction false} RorChainExact(xs: seq<Byte>, f: Sreg)
    ensures
      var r := RorChain(xs, f);
      && |r.bytes| == |xs|
      && 2 * Val(r.bytes) + Flag01(r.sreg.c) == Val(xs) + (if f.c then Pow256(|xs|) else 0)
  {
    if xs != [] {
      RorChainExact(xs[1..], f);
      var high := RorChain(xs[1..], f);
      var o := Ror(xs[0], high.sreg);
      assert ([o.value] + high.bytes)[1..] == high.bytes;
      assert 2 * (xs[0] / 2) + xs[0] % 2 == xs[0];
    }
  }

  /** LSR;ROR* halves an unsigned number of any length; C is the bit shifted out. */
  lemma {:induction false} LsrChainHalves(xs: seq<Byte>, f: Sreg)
    requires xs != []
    ensures
      var r := ShiftChain(Logical, xs, f);
      |r.bytes| == |xs| && Val(r.bytes) == Val(xs) / 2 && r.sreg.c == (Val(xs) % 2 == 1)
  {
    if |xs| > 1 {
      LsrChainHalves(xs[1..], f);
      var high := ShiftChain(Logical, xs[1..], f);
      var o := Ror(xs[0], high.sreg);
      assert ([o.value] + high.bytes)[1..] == high.bytes;
    }
  }

  /** ASR;ROR* halves a signed number of any length, rounding down; C is the bit shifted out. */
  lemma {:induction false} AsrChainHalves(xs: seq<Byte>, f: Sreg)
    requires xs != []
    ensures
      var r := ShiftChain(Arithmetic, xs, f);
      |r.bytes| == |xs| && SVal(r.bytes) == SVal(xs) / 2 && r.sreg.c == (SVal(xs) % 2 == 1)
  {
    if |xs| > 1 {
      AsrChainHalves(xs[1..], f);
      var high := ShiftChain(Arithmetic, xs[1..], f);
      var o := Ror(xs[0], high.sreg);
      assert ([o.value] + high.bytes)[1..] == high.bytes;
    }
  }

  /** LSL;ROL* (ADD r,r;ADC r,r*) doubles modulo 256^n with C the top bit; ROR* afterwards undoes it. */
  lemma DoubleThenRotateBack(xs: seq<Byte>, f: Sreg)
    requires xs != []
    ensures
      var doubled := AddChain(xs, xs, f);
      && Val(doubled.bytes) + (if doubled.sreg.c then Pow256(|xs|) else 0) == 2 * Val(xs)
      && doubled.sreg.c == (Val(xs) >= Half(|xs|))
      && RorChain(doubled.bytes, doubled.sreg).bytes == xs
      && !RorChain(doubled.bytes, doubled.sreg).sreg.c
  {
    var doubled := AddChain(xs, xs, f);
    AddChainExact(xs, xs, f);
    AddIsAdc(xs, xs, f);
    AdcChainValue(xs, xs, f.(c := false, z := true));
    RorChainExact(doubled.bytes, doubled.sreg);
    ValInjective(RorChain(doubled.bytes, doubled.sreg).bytes, xs);
  }
}
