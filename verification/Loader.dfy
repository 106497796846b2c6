/**
 The ELF loader: header and segment checks, then two passes over the program headers that overlay
 segment bytes on flash and SRAM. A rejected file leaves behind what was written before the failure.
 */
module Loader {
  import opened Bits
  import opened Alu
  import opened Machine
  import opened Emulation

  type U32 = x: int | 0 <= x < 0x1_0000_0000

  const EHDR_SIZE := 52
  const PHDR_SIZE := 32
  const EM_AVR := 83
  const PT_LOAD := 1
  const DATA_SPACE := 0x80_0000

  /** `[offset, offset + size)` lies within `limit`, compared without adding. */
  predicate RangeFits(offset: nat, size: nat, limit: nat)
    ensures RangeFits(offset, size, limit) <==> offset + size <= limit
  {
    offset <= limit && size <= limit - offset
  }

  // ------------------------------------------------------------------ little-endian records

  function HalfAt(file: seq<Byte>, at: nat): Word
    requires at + 2 <= |file|
  {
    Join(file[at], file[at + 1])
  }

  function WordAt(file: seq<Byte>, at: nat): U32
    requires at + 4 <= |file|
  {
    HalfAt(file, at) + 0x1_0000 * HalfAt(file, at + 2)
  }

  datatype Header = Header(
    machine: Word, version: U32, entry: U32, phoff: U32, ehsize: Word, phentsize: Word, phnum: Word)

  function HeaderOf(file: seq<Byte>): Header
    requires |file| >= EHDR_SIZE
  {
    Header(HalfAt(file, 0x12), WordAt(file, 0x14), WordAt(file, 0x18), WordAt(file, 0x1C),
           HalfAt(file, 0x28), HalfAt(file, 0x2A), HalfAt(file, 0x2C))
  }

  datatype Segment = Segment(
    kind: U32, offset: U32, vaddr: U32, paddr: U32, filesz: U32, memsz: U32, flags: U32)

  function SegmentAt(file: seq<Byte>, at: nat): Segment
    requires at + PHDR_SIZE <= |file|
  {
    Segment(WordAt(file, at), WordAt(file, at + 4), WordAt(file, at + 8), WordAt(file, at + 12),
            WordAt(file, at + 16), WordAt(file, at + 20), WordAt(file, at + 24))
  }

  /** The program header table, in file order. */
  function SegmentsFrom(file: seq<Byte>, at: nat, n: nat): (r: seq<Segment>)
    requires at + n * PHDR_SIZE <= |file|
    ensures |r| == n
    decreases n
  {
    if n == 0 then [] else [SegmentAt(file, at)] + SegmentsFrom(file, at + PHDR_SIZE, n - 1)
  }

  predicate IsText(s: Segment) {
    s.kind == PT_LOAD && !Bit(s.flags, 1)
  }

  predicate IsData(s: Segment) {
    s.kind == PT_LOAD && Bit(s.flags, 1)
  }

  // ------------------------------------------------------------------ checks before loading

  datatype Rejection =
    | TooSmall | NotAvrElf | NoProgramHeaders | BadTable | BadSegment
    | TextInDataSpace | TextTooLong | NoText
    | DataOutsideDataSpace | DataTooLong | ImageTooLong | EntryOutside

  predicate Identified(file: seq<Byte>)
    requires |file| >= EHDR_SIZE
  {
    var h := HeaderOf(file);
    && file[..7] == [0x7F, 'E' as int, 'L' as int, 'F' as int, 1, 1, 1]
    && h.machine == EM_AVR && h.version == 1 && h.ehsize == EHDR_SIZE
  }

  predicate SegmentReadable(file: seq<Byte>, s: Segment) {
    s.kind == PT_LOAD ==> s.filesz <= s.memsz && RangeFits(s.offset, s.filesz, |file|)
  }

  predicate Readable(file: seq<Byte>, segs: seq<Segment>) {
    forall i :: 0 <= i < |segs| ==> SegmentReadable(file, segs[i])
  }

  function HeaderRejection(file: seq<Byte>): Option<Rejection> {
    if |file| < EHDR_SIZE then Some(TooSmall)
    else if !Identified(file) then Some(NotAvrElf)
    else
      var h := HeaderOf(file);
      if h.phoff == 0 || h.phnum == 0 then Some(NoProgramHeaders)
      else if h.phentsize != PHDR_SIZE || !RangeFits(h.phoff, h.phnum * PHDR_SIZE, |file|) then Some(BadTable)
      else if !Readable(file, SegmentsFrom(file, h.phoff, h.phnum)) then Some(BadSegment)
      else None
  }

  function Segments(file: seq<Byte>): (r: seq<Segment>)
    requires HeaderRejection(file).None?
    ensures Readable(file, r)
  {
    SegmentsFrom(file, HeaderOf(file).phoff, HeaderOf(file).phnum)
  }

  // ------------------------------------------------------------------ the two passes

  /** Flash and SRAM while they are being filled; `next` is where the next .data image goes. */
  datatype Image = Image(flash: seq<Byte>, sram: seq<Byte>, next: nat, hasText: bool) {
    predicate Sized() {
      |flash| == FLASH_SIZE && |sram| == SRAM_SIZE && next <= FLASH_SIZE
    }
  }

  datatype Progress = Progress(img: Image, failed: Option<Rejection>)

  function Payload(file: seq<Byte>, s: Segment): (r: seq<Byte>)
    requires s.kind == PT_LOAD && SegmentReadable(file, s)
    ensures |r| == s.filesz
  {
    file[s.offset..s.offset + s.filesz]
  }

  function Overlay(mem: seq<Byte>, at: nat, data: seq<Byte>): (r: seq<Byte>)
    requires at + |data| <= |mem|
    ensures |r| == |mem|
    ensures forall a :: 0 <= a < |mem| ==> r[a] == if at <= a < at + |data| then data[a - at] else mem[a]
  {
    mem[..at] + data + mem[at + |data|..]
  }

  function Max(a: nat, b: nat): nat {
    if a < b then b else a
  }

  function LoadText(file: seq<Byte>, img: Image, s: Segment): (p: Progress)
    requires img.Sized() && SegmentReadable(file, s)
    ensures p.img.Sized()
  {
    if !IsText(s) then Progress(img, None)
    else if s.vaddr >= DATA_SPACE then Progress(img, Some(TextInDataSpace))
    else if !RangeFits(s.vaddr, s.filesz, FLASH_SIZE) then Progress(img, Some(TextTooLong))
    else
      Progress(Image(Overlay(img.flash, s.vaddr, Payload(file, s)), img.sram,
                     Max(img.next, s.vaddr + s.filesz), true), None)
  }

  /** Where the initial values of a writable segment go in flash. */
  function Destination(s: Segment, next: nat): nat {
    if s.paddr >= DATA_SPACE then next else s.paddr
  }

  function SramAddr(s: Segment): nat
    requires s.vaddr >= DATA_SPACE
  {
    s.vaddr - DATA_SPACE
  }

  /** Writable segments that carry initial values; the others are .bss only. */
  function LoadInitialized(file: seq<Byte>, img: Image, s: Segment): (p: Progress)
    requires img.Sized() && SegmentReadable(file, s) && IsData(s)
    requires s.vaddr >= DATA_SPACE && SramAddr(s) + s.memsz <= SRAM_SIZE
    ensures p.img.Sized()
  {
    var dest := Destination(s, img.next);
    if s.filesz == 0 then Progress(img, None)
    else if !RangeFits(dest, s.filesz, FLASH_SIZE) then Progress(img, Some(ImageTooLong))
    else
      Progress(Image(Overlay(img.flash, dest, Payload(file, s)), Overlay(img.sram, SramAddr(s), Payload(file, s)),
                     dest + s.filesz, img.hasText), None)
  }

  function LoadData(file: seq<Byte>, img: Image, s: Segment): (p: Progress)
    requires img.Sized() && SegmentReadable(file, s)
    ensures p.img.Sized()
  {
    if !IsData(s) then Progress(img, None)
    else if s.vaddr < DATA_SPACE || s.vaddr > 0x80_FFFF then Progress(img, Some(DataOutsideDataSpace))
    else if !RangeFits(SramAddr(s), s.memsz, SRAM_SIZE) then Progress(img, Some(DataTooLong))
    else
      var p := LoadInitialized(file, img, s);
      if p.failed.Some? then p
      else
        Progress(p.img.(sram := Overlay(p.img.sram, SramAddr(s) + s.filesz, Zeros(s.memsz - s.filesz))), None)
  }

  function TextPass(file: seq<Byte>, img: Image, segs: seq<Segment>): (p: Progress)
    requires img.Sized() && Readable(file, segs)
    ensures p.img.Sized()
    decreases |segs|
  {
    if segs == [] then Progress(img, None)
    else
      var p := LoadText(file, img, segs[0]);
      if p.failed.Some? then p else TextPass(file, p.img, segs[1..])
  }

  function DataPass(file: seq<Byte>, img: Image, segs: seq<Segment>): (p: Progress)
    requires img.Sized() && Readable(file, segs)
    ensures p.img.Sized()
    decreases |segs|
  {
    if segs == [] then Progress(img, None)
    else
      var p := LoadData(file, img, segs[0]);
      if p.failed.Some? then p else DataPass(file, p.img, segs[1..])
  }

  /** The effect of loading a file on flash and SRAM, and why it was rejected, if it was. */
  function LoadFile(file: seq<Byte>, flash: seq<Byte>, sram: seq<Byte>): (p: Progress)
    requires |flash| == FLASH_SIZE && |sram| == SRAM_SIZE
    ensures p.img.Sized()
    ensures p.failed.None? ==> |file| >= EHDR_SIZE && HeaderOf(file).entry < FLASH_SIZE
  {
    var start := Image(flash, sram, 0, false);
    if HeaderRejection(file).Some? then Progress(start, HeaderRejection(file))
    else
      var text := TextPass(file, start, Segments(file));
      if text.failed.Some? then text
      else if !text.img.hasText then Progress(text.img, Some(NoText))
      else
        var data := DataPass(file, text.img, Segments(file));
        if data.failed.Some? then data
        else if HeaderOf(file).entry >= FLASH_SIZE then Progress(data.img, Some(EntryOutside))
        else data
  }

  // ------------------------------------------------------------------ the loader on the emulator's arrays

  /** memcpy of `data` to mem[at..]. */
  method Copy(mem: array<Byte>, at: nat, data: seq<Byte>)
    requires at + |data| <= mem.Length
    modifies mem
    ensures mem[..] == Overlay(old(mem[..]), at, data)
  {
    var k := 0;
    while k < |data|
      invariant 0 <= k <= |data|
      invariant mem[..] == Overlay(old(mem[..]), at, data[..k])
    {
      mem[at + k] := data[k];
      k := k + 1;
    }
    assert data[..k] == data;
  }

  method ReadSegments(file: seq<Byte>, at: nat, n: nat) returns (segs: seq<Segment>)
    requires at + n * PHDR_SIZE <= |file|
    ensures segs == SegmentsFrom(file, at, n)
  {
    segs := [];
    var i := 0;
    while i < n
      invariant i <= n && at + n * PHDR_SIZE <= |file|
      invariant SegmentsFrom(file, at, n) == segs + SegmentsFrom(file, at + i * PHDR_SIZE, n - i)
    {
      segs := segs + [SegmentAt(file, at + i * PHDR_SIZE)];
      i := i + 1;
    }
  }

  method AllReadable(file: seq<Byte>, segs: seq<Segment>) returns (ok: bool)
    ensures ok <==> Readable(file, segs)
  {
    var i := 0;
    while i < |segs|
      invariant 0 <= i <= |segs|
      invariant forall k :: 0 <= k < i ==> SegmentReadable(file, segs[k])
    {
      if !SegmentReadable(file, segs[i]) {
        return false;
      }
      i := i + 1;
    }
    return true;
  }

  method CheckHeader(file: seq<Byte>) returns (failed: Option<Rejection>, segs: seq<Segment>)
    ensures failed == HeaderRejection(file)
    ensures failed.None? ==> segs == Segments(file)
  {
    segs := [];
    if |file| < EHDR_SIZE {
      return Some(TooSmall), segs;
    }
    var h := HeaderOf(file);
    if !Identified(file) {
      return Some(NotAvrElf), segs;
    }
    if h.phoff == 0 || h.phnum == 0 {
      return Some(NoProgramHeaders), segs;
    }
    if h.phentsize != PHDR_SIZE || !RangeFits(h.phoff, h.phnum * PHDR_SIZE, |file|) {
      return Some(BadTable), segs;
    }
    segs := ReadSegments(file, h.phoff, h.phnum);
    var ok := AllReadable(file, segs);
    failed := if ok then None else Some(BadSegment);
  }

  method LoadTextSegments(state: Emulator, file: seq<Byte>, segs: seq<Segment>)
    returns (next: nat, hasText: bool, failed: Option<Rejection>)
    requires state.Valid() && Readable(file, segs)
    modifies state.flash
    ensures
      var p := TextPass(file, Image(old(state.flash[..]), old(state.sram[..]), 0, false), segs);
      && p == Progress(Image(state.flash[..], state.sram[..], next, hasText), failed)
  {
    hide LoadText;
    ghost var start := Image(state.flash[..], state.sram[..], 0, false);
    next, hasText, failed := 0, false, None;
    var i := 0;
    while i < |segs|
      invariant 0 <= i <= |segs| && next <= FLASH_SIZE && failed.None? && state.sram[..] == start.sram
      invariant TextPass(file, start, segs)
             == TextPass(file, Image(state.flash[..], state.sram[..], next, hasText), segs[i..])
    {
      var s := segs[i];
      assert segs[i..][0] == s && segs[i..][1..] == segs[i + 1..];
      failed, next, hasText := LoadTextSegment(state, file, s, next, hasText);
      if failed.Some? {
        return;
      }
      i := i + 1;
    }
    assert segs[i..] == [];
  }

  method LoadTextSegment(state: Emulator, file: seq<Byte>, s: Segment, nextBefore: nat, hadText: bool)
    returns (failed: Option<Rejection>, next: nat, hasText: bool)
    requires state.Valid() && SegmentReadable(file, s) && nextBefore <= FLASH_SIZE
    modifies state.flash
    ensures
      LoadText(file, Image(old(state.flash[..]), old(state.sram[..]), nextBefore, hadText), s)
        == Progress(Image(state.flash[..], state.sram[..], next, hasText), failed)
  {
    failed, next, hasText := None, nextBefore, hadText;
    if s.kind != PT_LOAD || Bit(s.flags, 1) {
      return;
    }
    if s.vaddr >= DATA_SPACE {
      failed := Some(TextInDataSpace);
      return;
    }
    if !RangeFits(s.vaddr, s.filesz, state.flash.Length) {
      failed := Some(TextTooLong);
      return;
    }
    Copy(state.flash, s.vaddr, Payload(file, s));
    hasText := true;
    next := Max(next, s.vaddr + s.filesz);
  }

  method LoadDataSegments(state: Emulator, file: seq<Byte>, segs: seq<Segment>, nextBefore: nat)
    returns (next: nat, failed: Option<Rejection>)
    requires state.Valid() && Readable(file, segs) && nextBefore <= FLASH_SIZE
    modifies state.flash, state.sram
    ensures
      var p := DataPass(file, Image(old(state.flash[..]), old(state.sram[..]), nextBefore, true), segs);
      && p == Progress(Image(state.flash[..], state.sram[..], next, true), failed)
  {
    hide LoadData;
    ghost var start := Image(state.flash[..], state.sram[..], nextBefore, true);
    next, failed := nextBefore, None;
    var i := 0;
    while i < |segs|
      invariant 0 <= i <= |segs| && next <= FLASH_SIZE && failed.None?
      invariant DataPass(file, start, segs)
             == DataPass(file, Image(state.flash[..], state.sram[..], next, true), segs[i..])
    {
      var s := segs[i];
      assert segs[i..][0] == s && segs[i..][1..] == segs[i + 1..];
      failed, next := LoadDataSegment(state, file, s, next);
      if failed.Some? {
        return;
      }
      i := i + 1;
    }
    assert segs[i..] == [];
  }

  method LoadDataSegment(state: Emulator, file: seq<Byte>, s: Segment, nextBefore: nat)
    returns (failed: Option<Rejection>, next: nat)
    requires state.Valid() && SegmentReadable(file, s) && nextBefore <= FLASH_SIZE
    modifies state.flash, state.sram
    ensures
      LoadData(file, Image(old(state.flash[..]), old(state.sram[..]), nextBefore, true), s)
        == Progress(Image(state.flash[..], state.sram[..], next, true), failed)
  {
    hide LoadInitialized, Overlay;
    failed, next := None, nextBefore;
    if s.kind != PT_LOAD || !Bit(s.flags, 1) {
      return;
    }
    if s.vaddr < DATA_SPACE || s.vaddr > 0x80_FFFF {
      failed := Some(DataOutsideDataSpace);
      return;
    }
    if !RangeFits(s.vaddr - DATA_SPACE, s.memsz, state.sram.Length) {
      failed := Some(DataTooLong);
      return;
    }
    failed, next := LoadInitialValues(state, file, s, next);
    if failed.Some? {
      return;
    }
    if s.memsz > s.filesz {
      Copy(state.sram, s.vaddr - DATA_SPACE + s.filesz, Zeros(s.memsz - s.filesz));
    } else {
      OverlayNothing(state.sram[..], s.vaddr - DATA_SPACE + s.filesz);
    }
  }

  /** The .data part of a writable segment: into flash for the startup code, and into SRAM. */
  method LoadInitialValues(state: Emulator, file: seq<Byte>, s: Segment, nextBefore: nat)
    returns (failed: Option<Rejection>, next: nat)
    requires state.Valid() && SegmentReadable(file, s) && IsData(s) && nextBefore <= FLASH_SIZE
    requires s.vaddr >= DATA_SPACE && SramAddr(s) + s.memsz <= SRAM_SIZE
    modifies state.flash, state.sram
    ensures
      LoadInitialized(file, Image(old(state.flash[..]), old(state.sram[..]), nextBefore, true), s)
        == Progress(Image(state.flash[..], state.sram[..], next, true), failed)
  {
    hide Overlay;
    failed, next := None, nextBefore;
    if s.filesz > 0 {
      var flashDest := if s.paddr >= DATA_SPACE then next else s.paddr;
      if !RangeFits(flashDest, s.filesz, state.flash.Length) {
        failed := Some(ImageTooLong);
        return;
      }
      var data := Payload(file, s);
      Copy(state.flash, flashDest, data);
      Copy(state.sram, SramAddr(s), data);
      next := flashDest + s.filesz;
    }
  }

  lemma OverlayNothing(mem: seq<Byte>, at: nat)
    requires at <= |mem|
    ensures Overlay(mem, at, Zeros(0)) == mem
  {
  }

  /** Loads a file into the emulator: flash, SRAM and, on success, pc. Nothing else changes. */
  method LoadFirmware(state: Emulator, file: seq<Byte>) returns (failed: Option<Rejection>)
    requires state.Valid()
    modifies state`pc, state.flash, state.sram
    ensures state.Valid()
    ensures
      var was := old(state.View());
      var p := LoadFile(file, was.flash, was.sram);
      && failed == p.failed
      && state.View() == was.(flash := p.img.flash, sram := p.img.sram,
                              pc := if failed.None? then HeaderOf(file).entry else was.pc)
  {
    hide TextPass, DataPass, HeaderRejection;
    var rejected, segs := CheckHeader(file);
    if rejected.Some? {
      return rejected;
    }
    var next, hasText, textFailed := LoadTextSegments(state, file, segs);
    if textFailed.Some? {
      return textFailed;
    }
    if !hasText {
      return Some(NoText);
    }
    next, failed := LoadDataSegments(state, file, segs, next);
    if failed.Some? {
      return;
    }
    HeaderLongEnough(file);
    var entry := HeaderOf(file).entry;
    if entry >= FLASH_SIZE {
      return Some(EntryOutside);
    }
    state.pc := entry;
  }

  lemma HeaderLongEnough(file: seq<Byte>)
    requires HeaderRejection(file).None?
    ensures |file| >= EHDR_SIZE
  {
  }

  /** A whole session: clear the machine, load the file and, if that works, run until stop or error. */
  method RunFirmware(file: seq<Byte>, inputs: seq<seq<Byte>>)
    returns (state: Emulator, failed: Option<Rejection>, ok: bool)
    ensures state.Valid() && fresh(state.Repr())
    ensures
      var p := LoadFile(file, Zeros(FLASH_SIZE), Zeros(SRAM_SIZE));
      && failed == p.failed
      && (failed.None? ==>
            var start := Reset(Blank().(flash := p.img.flash, sram := p.img.sram, pc := HeaderOf(file).entry));
            Run(start, inputs) == if ok then Running(state.View()) else Halted(state.View()))
  {
    hide LoadFile, Run, Zeros, HeaderOf;
    state := new Emulator();
    failed := LoadFirmware(state, file);
    if failed.Some? {
      return state, failed, false;
    }
    ok := state.ExecuteProgram(inputs);
  }
}
