/**
 Operand fields by the bit layouts of the instruction set: assembling operands into a word and
 extracting them gives them back, for every format, and the fields stay clear of the opcode bits.
 */
module OperandLaws {
  import opened OpcodeTable
  import opened Decoder

  /** A raw n-bit field read as a two's complement number. */
  function SignedField(raw: nat, half: nat): int {
    if raw < half then raw else raw - 2 * half
  }

  /** xxxx xxrd dddd rrrr. */
  function AssembleRdRr(code: Code, d: Code, r: Code): Code {
    code | ((r & 0x10) << 5) | (d << 4) | (r & 0x0F)
  }

  lemma RdRrFields(code: Code, d: Code, r: Code)
    requires code & 0x03FF == 0 && d < 32 && r < 32
    ensures
      var w := AssembleRdRr(code, d, r);
      RegD(w) == d as int && RegR(w) == r as int && w & 0xFC00 == code
  {
    var w := AssembleRdRr(code, d, r);
    assert (w >> 4) & 0x1F == d;
    assert ((w >> 5) & 0x10) | (w & 0x0F) == r;
  }

  /** xxxx KKKK dddd KKKK, on R16 to R31. */
  function AssembleRdK8(code: Code, d: Code, k: Code): Code {
    code | ((k & 0xF0) << 4) | (d << 4) | (k & 0x0F)
  }

  lemma RdK8Fields(code: Code, d: Code, k: Code)
    requires code & 0x0FFF == 0 && d < 16 && k < 256
    ensures
      var w := AssembleRdK8(code, d, k);
      HighD(w) == 16 + d as int && Imm8(w) == k as int && w & 0xF000 == code
  {
    var w := AssembleRdK8(code, d, k);
    assert (w >> 4) & 0x0F == d;
    assert ((w >> 4) & 0xF0) | (w & 0x0F) == k;
  }

  /** xxxx xxxd dddd xxxx. */
  function AssembleRd(code: Code, d: Code): Code {
    code | (d << 4)
  }

  lemma RdFields(code: Code, d: Code)
    requires code & 0x01F0 == 0 && d < 32
    ensures
      var w := AssembleRd(code, d);
      RegD(w) == d as int && w & 0xFE0F == code
  {
    var w := AssembleRd(code, d);
    assert (w >> 4) & 0x1F == d;
  }

  /** xxxx xxxx xddd xrrr, on R16 to R23. */
  function AssembleRdRrMpy(code: Code, d: Code, r: Code): Code {
    code | (d << 4) | r
  }

  lemma RdRrMpyFields(code: Code, d: Code, r: Code)
    requires code & 0x0077 == 0 && d < 8 && r < 8
    ensures
      var w := AssembleRdRrMpy(code, d, r);
      MulD(w) == 16 + d as int && MulR(w) == 16 + r as int && w & 0xFF88 == code
  {
    var w := AssembleRdRrMpy(code, d, r);
    assert (w >> 4) & 0x07 == d;
    assert w & 0x07 == r;
  }

  /** xxxx xxxx KKdd KKKK, on the pairs from R24 up. */
  function AssembleRd06K6(code: Code, p: Code, k: Code): Code {
    code | ((k & 0x30) << 2) | (p << 4) | (k & 0x0F)
  }

  lemma Rd06K6Fields(code: Code, p: Code, k: Code)
    requires code & 0x00FF == 0 && p < 4 && k < 64
    ensures
      var w := AssembleRd06K6(code, p, k);
      PairD(w) == 24 + 2 * p as int && K6(w) == k as int && w & 0xFF00 == code
  {
    var w := AssembleRd06K6(code, p, k);
    assert (w >> 4) & 0x03 == p;
    assert ((w >> 2) & 0x30) | (w & 0x0F) == k;
  }

  /** xxxx xxxx dddd rrrr. */
  function AssembleRd06Rr06(code: Code, d: Code, r: Code): Code {
    code | (d << 4) | r
  }

  lemma Rd06Rr06Fields(code: Code, d: Code, r: Code)
    requires code & 0x00FF == 0 && d < 16 && r < 16
    ensures
      var w := AssembleRd06Rr06(code, d, r);
      NibbleD(w) == d as int && NibbleR(w) == r as int && w & 0xFF00 == code
  {
    var w := AssembleRd06Rr06(code, d, r);
    assert (w >> 4) & 0x0F == d;
    assert w & 0x0F == r;
  }

  /** xxxx xxxx xsss xxxx. */
  function AssembleBitOnly(code: Code, s: Code): Code {
    code | (s << 4)
  }

  lemma BitOnlyFields(code: Code, s: Code)
    requires code & 0x0070 == 0 && s < 8
    ensures
      var w := AssembleBitOnly(code, s);
      BitMid(w) == s as int && w & 0xFF8F == code
  {
    var w := AssembleBitOnly(code, s);
    assert (w >> 4) & 0x07 == s;
  }

  /** xxxx xxxd dddd xbbb. */
  function AssembleRdB(code: Code, d: Code, b: Code): Code {
    code | (d << 4) | b
  }

  lemma RdBFields(code: Code, d: Code, b: Code)
    requires code & 0x01F7 == 0 && d < 32 && b < 8
    ensures
      var w := AssembleRdB(code, d, b);
      RegD(w) == d as int && BitLow(w) == b as int && w & 0xFE08 == code
  {
    var w := AssembleRdB(code, d, b);
    assert (w >> 4) & 0x1F == d;
    assert w & 0x07 == b;
  }

  /** xxxx xxxx AAAA Abbb. */
  function AssembleIoB(code: Code, a: Code, b: Code): Code {
    code | (a << 3) | b
  }

  lemma IoBFields(code: Code, a: Code, b: Code)
    requires code & 0x00FF == 0 && a < 32 && b < 8
    ensures
      var w := AssembleIoB(code, a, b);
      Io5(w) == a as int && BitLow(w) == b as int && w & 0xFF00 == code
  {
    var w := AssembleIoB(code, a, b);
    assert (w >> 3) & 0x1F == a;
    assert w & 0x07 == b;
  }

  /** xxxx xAAd dddd AAAA. */
  function AssembleRdIo(code: Code, d: Code, a: Code): Code {
    code | ((a & 0x30) << 5) | (d << 4) | (a & 0x0F)
  }

  lemma RdIoFields(code: Code, d: Code, a: Code)
    requires code & 0x07FF == 0 && d < 32 && a < 64
    ensures
      var w := AssembleRdIo(code, d, a);
      RegD(w) == d as int && Io6(w) == a as int && w & 0xF800 == code
  {
    RdIoBits(code, d, a);
    var w := AssembleRdIo(code, d, a);
    hide AssembleRdIo;
    assert RegD(w) == d as int;
    assert Io6(w) == a as int;
  }

  lemma RdIoBits(code: Code, d: Code, a: Code)
    requires code & 0x07FF == 0 && d < 32 && a < 64
    ensures
      var w := AssembleRdIo(code, d, a);
      (w >> 4) & 0x1F == d && ((w >> 5) & 0x30) | (w & 0x0F) == a && w & 0xF800 == code
  {
  }

  /** xxxx xxkk kkkk ksss, k in two's complement. */
  function AssembleK7(code: Code, k: Code, s: Code): Code {
    code | (k << 3) | s
  }

  lemma K7Fields(code: Code, k: Code, s: Code)
    requires code & 0x03FF == 0 && k < 0x80 && s < 8
    ensures
      var w := AssembleK7(code, k, s);
      Offset7(w) == SignedField(k as int, 0x40) && BitLow(w) == s as int && w & 0xFC00 == code
  {
    var w := AssembleK7(code, k, s);
    assert (w >> 3) & 0x7F == k;
    assert w & 0x07 == s;
    assert k & 0x40 != 0 <==> k >= 0x40;
  }

  /** xxxx kkkk kkkk kkkk, in two's complement. */
  function AssembleK02(code: Code, k: Code): Code {
    code | k
  }

  lemma K02Fields(code: Code, k: Code)
    requires code & 0x0FFF == 0 && k < 0x1000
    ensures
      var w := AssembleK02(code, k);
      Offset12(w) == SignedField(k as int, 0x800) && w & 0xF000 == code
  {
    var w := AssembleK02(code, k);
    assert w & 0x0FFF == k && w & 0xF000 == code;
    Offset12OfField(w, k);
  }

  lemma Offset12OfField(w: Code, k: Code)
    requires w & 0x0FFF == k
    ensures Offset12(w) == SignedField(k as int, 0x800)
  {
    SignBitOf12(k);
  }

  lemma SignBitOf12(k: Code)
    requires k & 0x0FFF == k
    ensures k & 0x0800 != 0 <==> k as int >= 0x800
  {
    assert k & 0x0800 != 0 <==> k >= 0x800;
  }

  /** xxxx xxxd dddd xxmm. */
  function AssembleLdSt(code: Code, d: Code, mode: Code): Code {
    code | (d << 4) | mode
  }

  lemma LdStFields(code: Code, d: Code, mode: Code)
    requires code & 0x01F3 == 0 && d < 32 && mode < 4
    ensures
      var w := AssembleLdSt(code, d, mode);
      RegD(w) == d as int && Mode(w) == mode as int && w & 0xFE0C == code
  {
    var w := AssembleLdSt(code, d, mode);
    assert (w >> 4) & 0x1F == d;
    assert w & 0x03 == mode;
  }

  /** xxqx qqxd dddd xqqq. */
  function AssembleLdd(code: Code, d: Code, q: Code): Code {
    code | ((q & 0x20) << 8) | ((q & 0x18) << 7) | (d << 4) | (q & 0x07)
  }

  lemma LddFields(code: Code, d: Code, q: Code)
    requires code & 0x2DF7 == 0 && d < 32 && q < 64
    ensures
      var w := AssembleLdd(code, d, q);
      RegD(w) == d as int && Disp6(w) == q as int && w & 0xD208 == code
  {
    var w := AssembleLdd(code, d, q);
    assert (w >> 4) & 0x1F == d;
    assert ((w >> 8) & 0x20) | ((w >> 7) & 0x18) | (w & 0x07) == q;
  }
}
