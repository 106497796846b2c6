/**
 The 32-bit little-endian ELF format as a writer sees it: header and program headers as bytes in the
 field order of the System V gABI. The loader reads back every field, and accepts or rejects a header
 for exactly the reasons listed here.
 */
module ElfFormat {
  import opened Bits
  import opened Loader

  function Half(x: Word): (r: seq<Byte>)
    ensures |r| == 2
  {
    [x % 256, x / 256]
  }

  function Quad(x: U32): (r: seq<Byte>)
    ensures |r| == 4
  {
    [x % 256, x / 256 % 256, x / 65536 % 256, x / 16777216]
  }

  /** Elf32_Ehdr. */
  datatype FileHeader = FileHeader(
    ident: seq<Byte>, kind: Word, machine: Word, version: U32, entry: U32, phoff: U32, shoff: U32, flags: U32,
    ehsize: Word, phentsize: Word, phnum: Word, shentsize: Word, shnum: Word, shstrndx: Word)

  /** Elf32_Phdr. */
  datatype ProgramHeader = ProgramHeader(
    kind: U32, offset: U32, vaddr: U32, paddr: U32, filesz: U32, memsz: U32, flags: U32, align: U32)

  function EncodeHeader(h: FileHeader): (r: seq<Byte>)
    requires |h.ident| == 16
    ensures |r| == 52
  {
    h.ident
    + Half(h.kind) + Half(h.machine) + Quad(h.version) + Quad(h.entry) + Quad(h.phoff) + Quad(h.shoff)
    + Quad(h.flags) + Half(h.ehsize) + Half(h.phentsize) + Half(h.phnum) + Half(h.shentsize) + Half(h.shnum)
    + Half(h.shstrndx)
  }

  function EncodeSegment(p: ProgramHeader): (r: seq<Byte>)
    ensures |r| == 32
  {
    Quad(p.kind) + Quad(p.offset) + Quad(p.vaddr) + Quad(p.paddr)
    + Quad(p.filesz) + Quad(p.memsz) + Quad(p.flags) + Quad(p.align)
  }

  function EncodeTable(ps: seq<ProgramHeader>): (r: seq<Byte>)
    ensures |r| == 32 * |ps|
  {
    if ps == [] then [] else EncodeSegment(ps[0]) + EncodeTable(ps[1..])
  }

  /** The bytes stand in the file at offset `at`. */
  predicate Holds(file: seq<Byte>, at: nat, bytes: seq<Byte>) {
    at + |bytes| <= |file| && file[at..at + |bytes|] == bytes
  }

  lemma HoldsParts(file: seq<Byte>, at: nat, a: seq<Byte>, b: seq<Byte>)
    requires Holds(file, at, a + b)
    ensures Holds(file, at, a) && Holds(file, at + |a|, b)
  {
    var both := file[at..at + |a| + |b|];
    assert file[at..at + |a|] == both[..|a|] == a;
    assert file[at + |a|..at + |a| + |b|] == both[|a|..] == b;
  }

  lemma HoldsBoth(file: seq<Byte>, at: nat, a: seq<Byte>, b: seq<Byte>)
    requires Holds(file, at, a) && Holds(file, at + |a|, b)
    ensures Holds(file, at, a + b)
  {
    assert file[at..at + |a| + |b|] == file[at..at + |a|] + file[at + |a|..at + |a| + |b|];
  }

  lemma HalfReadsBack(file: seq<Byte>, at: nat, x: Word)
    requires Holds(file, at, Half(x))
    ensures HalfAt(file, at) == x
  {
    assert file[at] == file[at..at + 2][0] && file[at + 1] == file[at..at + 2][1];
  }

  lemma QuadReadsBack(file: seq<Byte>, at: nat, x: U32)
    requires Holds(file, at, Quad(x))
    ensures WordAt(file, at) == x
  {
    var q := file[at..at + 4];
    assert file[at] == q[0] && file[at + 1] == q[1] && file[at + 2] == q[2] && file[at + 3] == q[3];
    QuadSum(x);
  }

  lemma QuadSum(x: U32)
    ensures x % 256 + 256 * (x / 256 % 256) + 65536 * (x / 65536 % 256 + 256 * (x / 16777216)) == x
  {
    var b := x / 256;
    var c := b / 256;
    assert c == x / 65536 by { DivDiv(x, 256, 256); }
    assert c / 256 == x / 16777216 by { DivDiv(x, 65536, 256); }
    assert x == 256 * b + x % 256 && b == 256 * c + b % 256 && c == 256 * (c / 256) + c % 256;
  }

  lemma DivDiv(x: nat, a: nat, b: nat)
    requires a > 0 && b > 0
    ensures a * b > 0 && x / a / b == x / (a * b)
  {
    var q := x / a;
    var p := q / b;
    assert x == a * q + x % a && q == b * p + q % b;
    MulDistributes(b * p, q % b, a);
    assert a * (b * p) == (a * b) * p;
    assert a * (q % b) <= a * (b - 1) by { MulSteps(a, b - 1 - q % b); }
    assert a * (b - 1) == a * b - a;
    ModUnique(x, a * b, p, a * (q % b) + x % a);
  }

  lemma HalfIsThere(file: seq<Byte>, at: nat)
    requires at + 2 <= |file|
    ensures Holds(file, at, Half(HalfAt(file, at)))
  {
  }

  lemma QuadIsThere(file: seq<Byte>, at: nat)
    requires at + 4 <= |file|
    ensures Holds(file, at, Quad(WordAt(file, at)))
  {
    var a, b, c, d := file[at], file[at + 1], file[at + 2], file[at + 3];
    QuadBytes(a, b, c, d);
  }

  lemma QuadBytes(a: Byte, b: Byte, c: Byte, d: Byte)
    ensures
      var x: U32 := (a as int + 256 * b as int) + 65536 * (c as int + 256 * d as int);
      Quad(x) == [a, b, c, d]
  {
    var ab, cd := a as int + 256 * b as int, c as int + 256 * d as int;
    ModUnique(ab + 65536 * cd, 256, b as int + 256 * cd, a);
    ModUnique(ab + 65536 * cd, 65536, cd, ab);
    ModUnique(ab + 65536 * cd, 16777216, d as int, ab + 65536 * c as int);
    ModUnique(b as int + 256 * cd, 256, cd, b);
    ModUnique(cd, 256, d as int, c);
  }

  /** The fields of the header that the loader looks at. */
  lemma HeaderReadsBack(file: seq<Byte>, h: FileHeader)
    requires |h.ident| == 16 && Holds(file, 0, EncodeHeader(h))
    ensures file[..16] == h.ident
    ensures
      var read := HeaderOf(file);
      && read.machine == h.machine && read.version == h.version && read.entry == h.entry && read.phoff == h.phoff
      && read.ehsize == h.ehsize && read.phentsize == h.phentsize && read.phnum == h.phnum
  {
    var f00 := h.ident;
    var f10 := f00 + Half(h.kind);
    var f12 := f10 + Half(h.machine);
    var f14 := f12 + Quad(h.version);
    var f18 := f14 + Quad(h.entry);
    var f1C := f18 + Quad(h.phoff);
    var f20 := f1C + Quad(h.shoff);
    var f24 := f20 + Quad(h.flags);
    var f28 := f24 + Half(h.ehsize);
    var f2A := f28 + Half(h.phentsize);
    var f2C := f2A + Half(h.phnum);
    var f2E := f2C + Half(h.shentsize);
    var f30 := f2E + Half(h.shnum);
    hide Holds, Half, Quad, HalfAt, WordAt;
    HoldsParts(file, 0, f30, Half(h.shstrndx));
    HoldsParts(file, 0, f2E, Half(h.shnum));
    HoldsParts(file, 0, f2C, Half(h.shentsize));
    HoldsParts(file, 0, f2A, Half(h.phnum));
    HoldsParts(file, 0, f28, Half(h.phentsize));
    HoldsParts(file, 0, f24, Half(h.ehsize));
    HoldsParts(file, 0, f20, Quad(h.flags));
    HoldsParts(file, 0, f1C, Quad(h.shoff));
    HoldsParts(file, 0, f18, Quad(h.phoff));
    HoldsParts(file, 0, f14, Quad(h.entry));
    HoldsParts(file, 0, f12, Quad(h.version));
    HoldsParts(file, 0, f10, Half(h.machine));
    HoldsParts(file, 0, f00, Half(h.kind));
    HoldsPrefix(file, f00);
    HoldsFits(file, 0x2C, Half(h.phnum));
    HalfReadsBack(file, 0x12, h.machine);
    QuadReadsBack(file, 0x14, h.version);
    QuadReadsBack(file, 0x18, h.entry);
    QuadReadsBack(file, 0x1C, h.phoff);
    HalfReadsBack(file, 0x28, h.ehsize);
    HalfReadsBack(file, 0x2A, h.phentsize);
    HalfReadsBack(file, 0x2C, h.phnum);
  }

  lemma HoldsPrefix(file: seq<Byte>, bytes: seq<Byte>)
    requires Holds(file, 0, bytes)
    ensures |bytes| <= |file| && file[..|bytes|] == bytes
  {
  }

  lemma HoldsFits(file: seq<Byte>, at: nat, bytes: seq<Byte>)
    requires Holds(file, at, bytes)
    ensures at + |bytes| <= |file|
  {
  }

  lemma SegmentReadsBack(file: seq<Byte>, at: nat, p: ProgramHeader)
    requires Holds(file, at, EncodeSegment(p))
    ensures SegmentAt(file, at) == Segment(p.kind, p.offset, p.vaddr, p.paddr, p.filesz, p.memsz, p.flags)
  {
    HoldsFits(file, at, EncodeSegment(p));
    var s04 := Quad(p.kind);
    var s08 := s04 + Quad(p.offset);
    var s0C := s08 + Quad(p.vaddr);
    var s10 := s0C + Quad(p.paddr);
    var s14 := s10 + Quad(p.filesz);
    var s18 := s14 + Quad(p.memsz);
    var s1C := s18 + Quad(p.flags);
    hide Holds, Quad, WordAt;
    HoldsParts(file, at, s1C, Quad(p.align));
    HoldsParts(file, at, s18, Quad(p.flags));
    HoldsParts(file, at, s14, Quad(p.memsz));
    HoldsParts(file, at, s10, Quad(p.filesz));
    HoldsParts(file, at, s0C, Quad(p.paddr));
    HoldsParts(file, at, s08, Quad(p.vaddr));
    HoldsParts(file, at, s04, Quad(p.offset));
    QuadReadsBack(file, at, p.kind);
    QuadReadsBack(file, at + 4, p.offset);
    QuadReadsBack(file, at + 8, p.vaddr);
    QuadReadsBack(file, at + 12, p.paddr);
    QuadReadsBack(file, at + 16, p.filesz);
    QuadReadsBack(file, at + 20, p.memsz);
    QuadReadsBack(file, at + 24, p.flags);
  }

  /** What the loader keeps of a program header. */
  function Kept(ps: seq<ProgramHeader>): (r: seq<Segment>)
    ensures |r| == |ps|
    ensures
      forall i :: 0 <= i < |ps| ==>
        r[i] == Segment(ps[i].kind, ps[i].offset, ps[i].vaddr, ps[i].paddr, ps[i].filesz, ps[i].memsz, ps[i].flags)
  {
    seq(|ps|, i requires 0 <= i < |ps| =>
      Segment(ps[i].kind, ps[i].offset, ps[i].vaddr, ps[i].paddr, ps[i].filesz, ps[i].memsz, ps[i].flags))
  }

  lemma {:induction false} TableReadsBack(file: seq<Byte>, at: nat, ps: seq<ProgramHeader>)
    requires Holds(file, at, EncodeTable(ps))
    ensures at + 32 * |ps| <= |file|
    ensures SegmentsFrom(file, at, |ps|) == Kept(ps)
    decreases |ps|
  {
    HoldsFits(file, at, EncodeTable(ps));
    if ps == [] {
    } else {
      HoldsParts(file, at, EncodeSegment(ps[0]), EncodeTable(ps[1..]));
      SegmentReadsBack(file, at, ps[0]);
      TableReadsBack(file, at + 32, ps[1..]);
      hide EncodeSegment, EncodeTable, Holds, SegmentAt;
      assert Kept(ps) == [Kept(ps)[0]] + Kept(ps[1..]);
    }
  }

  // ------------------------------------------------------------------ whole headers

  /** 0x7F ELF, 32 bits, least significant byte first, version 1: for AVR, with a header of 52 bytes. */
  predicate ForAvr(h: FileHeader)
    requires |h.ident| == 16
  {
    && h.ident[0] == 127 && h.ident[1] == 69 && h.ident[2] == 76 && h.ident[3] == 70
    && h.ident[4] == 1 && h.ident[5] == 1 && h.ident[6] == 1
    && h.machine == 83 && h.version == 1 && h.ehsize == 52
  }

  /** A loadable segment has at most as many bytes in the file as in memory, and all of them exist. */
  predicate Sound(size: nat, p: ProgramHeader) {
    p.kind == 1 ==> p.filesz <= p.memsz && p.offset + p.filesz <= size
  }

  /** What the file says at the front and, if it fits, in its program header table. */
  predicate Describes(file: seq<Byte>, h: FileHeader, ps: seq<ProgramHeader>) {
    && |h.ident| == 16 && Holds(file, 0, EncodeHeader(h))
    && (h.phoff + 32 * h.phnum <= |file| ==> |ps| == h.phnum && Holds(file, h.phoff, EncodeTable(ps)))
  }

  lemma IdentifiedForAvr(file: seq<Byte>, h: FileHeader)
    requires |h.ident| == 16 && Holds(file, 0, EncodeHeader(h))
    ensures |file| >= 52 && (Identified(file) <==> ForAvr(h))
  {
    HeaderReadsBack(file, h);
    HoldsFits(file, 0, EncodeHeader(h));
    hide EncodeHeader, Holds, HeaderOf;
    assert file[..7] == h.ident[..7];
    assert |h.ident[..7]| == 7;
    assert ForAvr(h) ==> h.ident[..7] == [127, 69, 76, 70, 1, 1, 1];
    assert h.ident[..7] == [127, 69, 76, 70, 1, 1, 1] ==>
      forall i :: 0 <= i < 7 ==> h.ident[i] == h.ident[..7][i];
  }

  /**
   Which header is rejected and why, in the loader's order; anything else is accepted, with the
   program headers of the table as segments and the entry point of the header.
   */
  lemma HeaderVerdict(file: seq<Byte>, h: FileHeader, ps: seq<ProgramHeader>)
    requires Describes(file, h, ps)
    ensures
      HeaderRejection(file) ==
      if !ForAvr(h) then Some(NotAvrElf)
      else if h.phoff == 0 || h.phnum == 0 then Some(NoProgramHeaders)
      else if h.phentsize != 32 || h.phoff + 32 * h.phnum > |file| then Some(BadTable)
      else if exists i :: 0 <= i < |ps| && !Sound(|file|, ps[i]) then Some(BadSegment)
      else None
    ensures HeaderRejection(file).None? ==> Segments(file) == Kept(ps) && |file| >= 52 && HeaderOf(file).entry == h.entry
  {
    HeaderReadsBack(file, h);
    IdentifiedForAvr(file, h);
    hide EncodeHeader, EncodeTable, Holds, HeaderOf, Identified, ForAvr;
    if h.phoff + 32 * h.phnum <= |file| {
      TableReadsBack(file, h.phoff, ps);
      hide SegmentsFrom;
      assert forall i :: 0 <= i < |ps| ==> (SegmentReadable(file, Kept(ps)[i]) <==> Sound(|file|, ps[i]));
    }
  }

  /** A header of the file's first 52 bytes. */
  lemma HeaderIsThere(file: seq<Byte>) returns (h: FileHeader)
    requires |file| >= 52
    ensures |h.ident| == 16 && Holds(file, 0, EncodeHeader(h))
  {
    h := FileHeader(
      file[..16], HalfAt(file, 0x10), HalfAt(file, 0x12), WordAt(file, 0x14), WordAt(file, 0x18), WordAt(file, 0x1C),
      WordAt(file, 0x20), WordAt(file, 0x24), HalfAt(file, 0x28), HalfAt(file, 0x2A), HalfAt(file, 0x2C),
      HalfAt(file, 0x2E), HalfAt(file, 0x30), HalfAt(file, 0x32));
    assert Holds(file, 0, h.ident);
    hide Holds, Half, Quad, HalfAt, WordAt;
    AddHalf(file, h.ident);
    var f12 := h.ident + Half(h.kind);
    AddHalf(file, f12);
    var f14 := f12 + Half(h.machine);
    AddQuad(file, f14);
    var f18 := f14 + Quad(h.version);
    AddQuad(file, f18);
    var f1C := f18 + Quad(h.entry);
    AddQuad(file, f1C);
    var f20 := f1C + Quad(h.phoff);
    AddQuad(file, f20);
    var f24 := f20 + Quad(h.shoff);
    AddQuad(file, f24);
    var f28 := f24 + Quad(h.flags);
    AddHalf(file, f28);
    var f2A := f28 + Half(h.ehsize);
    AddHalf(file, f2A);
    var f2C := f2A + Half(h.phentsize);
    AddHalf(file, f2C);
    var f2E := f2C + Half(h.phnum);
    AddHalf(file, f2E);
    var f30 := f2E + Half(h.shentsize);
    AddHalf(file, f30);
    AddHalf(file, f30 + Half(h.shnum));
  }

  lemma AddHalf(file: seq<Byte>, bytes: seq<Byte>)
    requires Holds(file, 0, bytes) && |bytes| + 2 <= |file|
    ensures Holds(file, 0, bytes + Half(HalfAt(file, |bytes|)))
  {
    hide Holds, Half, HalfAt;
    HalfIsThere(file, |bytes|);
    HoldsBoth(file, 0, bytes, Half(HalfAt(file, |bytes|)));
  }

  lemma AddQuad(file: seq<Byte>, bytes: seq<Byte>)
    requires Holds(file, 0, bytes) && |bytes| + 4 <= |file|
    ensures Holds(file, 0, bytes + Quad(WordAt(file, |bytes|)))
  {
    hide Holds, Quad, WordAt;
    QuadIsThere(file, |bytes|);
    HoldsBoth(file, 0, bytes, Quad(WordAt(file, |bytes|)));
  }

  lemma AddFieldTo(file: seq<Byte>, at: nat, bytes: seq<Byte>)
    requires Holds(file, at, bytes) && at + |bytes| + 4 <= |file|
    ensures Holds(file, at, bytes + Quad(WordAt(file, at + |bytes|)))
  {
    hide Holds, Quad, WordAt;
    QuadIsThere(file, at + |bytes|);
    HoldsBoth(file, at, bytes, Quad(WordAt(file, at + |bytes|)));
  }

  lemma SegmentIsThere(file: seq<Byte>, at: nat) returns (p: ProgramHeader)
    requires at + 32 <= |file|
    ensures Holds(file, at, EncodeSegment(p))
  {
    p := ProgramHeader(WordAt(file, at), WordAt(file, at + 4), WordAt(file, at + 8), WordAt(file, at + 12),
                       WordAt(file, at + 16), WordAt(file, at + 20), WordAt(file, at + 24), WordAt(file, at + 28));
    hide Holds, Quad, WordAt;
    QuadIsThere(file, at);
    AddFieldTo(file, at, Quad(p.kind));
    var s08 := Quad(p.kind) + Quad(p.offset);
    AddFieldTo(file, at, s08);
    var s0C := s08 + Quad(p.vaddr);
    AddFieldTo(file, at, s0C);
    var s10 := s0C + Quad(p.paddr);
    AddFieldTo(file, at, s10);
    var s14 := s10 + Quad(p.filesz);
    AddFieldTo(file, at, s14);
    var s18 := s14 + Quad(p.memsz);
    AddFieldTo(file, at, s18);
    AddFieldTo(file, at, s18 + Quad(p.flags));
  }

  lemma {:induction false} TableIsThere(file: seq<Byte>, at: nat, n: nat) returns (ps: seq<ProgramHeader>)
    requires at + 32 * n <= |file|
    ensures |ps| == n && Holds(file, at, EncodeTable(ps))
    decreases n
  {
    if n == 0 {
      ps := [];
    } else {
      var p := SegmentIsThere(file, at);
      var rest := TableIsThere(file, at + 32, n - 1);
      ps := [p] + rest;
      assert ps[1..] == rest;
      HoldsBoth(file, at, EncodeSegment(p), EncodeTable(rest));
    }
  }

  /** Every file of at least 52 bytes is described by some header and table: the verdict covers them all. */
  lemma EveryFileIsDescribed(file: seq<Byte>) returns (h: FileHeader, ps: seq<ProgramHeader>)
    requires |file| >= 52
    ensures Describes(file, h, ps)
  {
    h := HeaderIsThere(file);
    hide EncodeHeader, EncodeTable, Holds;
    ps := [];
    if h.phoff + 32 * h.phnum <= |file| {
      ps := TableIsThere(file, h.phoff, h.phnum);
    }
  }

  lemma TooSmallForHeader(file: seq<Byte>)
    ensures HeaderRejection(file) == Some(TooSmall) <==> |file| < 52
  {
  }
}
