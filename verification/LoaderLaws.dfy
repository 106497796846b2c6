/** What a successful load leaves in flash and SRAM, and exactly when a load succeeds. */
module LoaderLaws {
  import opened Bits
  import opened Machine
  import opened Loader

  // ------------------------------------------------------------------ acceptance and overlays

  datatype Patch = Patch(at: nat, data: seq<Byte>)

  predicate Fit(ps: seq<Patch>, size: nat) {
    forall i :: 0 <= i < |ps| ==> ps[i].at + |ps[i].data| <= size
  }

  /** The patches laid over the memory in order. */
  function ApplyAll(mem: seq<Byte>, ps: seq<Patch>): (r: seq<Byte>)
    requires Fit(ps, |mem|)
    ensures |r| == |mem|
    decreases |ps|
  {
    if ps == [] then mem else ApplyAll(Overlay(mem, ps[0].at, ps[0].data), ps[1..])
  }

  lemma {:induction false} ApplyConcat(mem: seq<Byte>, a: seq<Patch>, b: seq<Patch>)
    requires Fit(a, |mem|) && Fit(b, |mem|)
    ensures Fit(a + b, |mem|) && ApplyAll(mem, a + b) == ApplyAll(ApplyAll(mem, a), b)
    decreases |a|
  {
    if a == [] {
      assert a + b == b;
    } else {
      assert (a + b)[1..] == a[1..] + b;
      ApplyConcat(Overlay(mem, a[0].at, a[0].data), a[1..], b);
    }
  }

  /** A segment with initial values to place in flash. */
  predicate HasImage(s: Segment) {
    IsData(s) && s.filesz > 0
  }

  /** Where the flash cursor stands after a segment of the data pass. */
  function CursorAfter(s: Segment, next: nat): nat {
    if HasImage(s) then Destination(s, next) + s.filesz else next
  }

  function TextPatch(file: seq<Byte>, s: Segment): seq<Patch>
    requires SegmentReadable(file, s)
  {
    if IsText(s) then [Patch(s.vaddr, Payload(file, s))] else []
  }

  function TextPatches(file: seq<Byte>, segs: seq<Segment>): seq<Patch>
    requires Readable(file, segs)
  {
    if segs == [] then [] else TextPatch(file, segs[0]) + TextPatches(file, segs[1..])
  }

  function TextEndAfter(s: Segment, next: nat): nat {
    if IsText(s) then Max(next, s.vaddr + s.filesz) else next
  }

  /** The end of the text: the furthest byte of any text segment. */
  function TextEnd(segs: seq<Segment>, next: nat): nat
    decreases |segs|
  {
    if segs == [] then next else TextEnd(segs[1..], TextEndAfter(segs[0], next))
  }

  function ImagePatch(file: seq<Byte>, s: Segment, next: nat): seq<Patch>
    requires SegmentReadable(file, s)
  {
    if HasImage(s) then [Patch(Destination(s, next), Payload(file, s))] else []
  }

  /** The .data images in flash: at their load address, or behind the previous image. */
  function ImagePatches(file: seq<Byte>, segs: seq<Segment>, next: nat): seq<Patch>
    requires Readable(file, segs)
    decreases |segs|
  {
    if segs == [] then []
    else ImagePatch(file, segs[0], next) + ImagePatches(file, segs[1..], CursorAfter(segs[0], next))
  }

  function SramPatch(file: seq<Byte>, s: Segment): seq<Patch>
    requires SegmentReadable(file, s) && DataInPlace(s)
  {
    if IsData(s) then [Patch(SramAddr(s), Payload(file, s) + Zeros(s.memsz - s.filesz))] else []
  }

  /** Initial values followed by zeros in SRAM. */
  function SramPatches(file: seq<Byte>, segs: seq<Segment>): seq<Patch>
    requires Readable(file, segs) && DataPlaced(segs)
  {
    if segs == [] then [] else SramPatch(file, segs[0]) + SramPatches(file, segs[1..])
  }

  predicate TextInPlace(s: Segment) {
    IsText(s) ==> s.vaddr < DATA_SPACE && s.vaddr + s.filesz <= FLASH_SIZE
  }

  predicate DataInPlace(s: Segment) {
    IsData(s) ==> DATA_SPACE <= s.vaddr <= 0x80_FFFF && SramAddr(s) + s.memsz <= SRAM_SIZE
  }

  predicate TextPlaced(segs: seq<Segment>) {
    forall i :: 0 <= i < |segs| ==> TextInPlace(segs[i])
  }

  predicate DataPlaced(segs: seq<Segment>) {
    forall i :: 0 <= i < |segs| ==> DataInPlace(segs[i])
  }

  predicate HasText(segs: seq<Segment>) {
    exists i :: 0 <= i < |segs| && IsText(segs[i])
  }

  // ------------------------------------------------------------------ the text pass

  lemma Split(segs: seq<Segment>)
    requires segs != []
    ensures TextPlaced(segs) <==> TextInPlace(segs[0]) && TextPlaced(segs[1..])
    ensures DataPlaced(segs) <==> DataInPlace(segs[0]) && DataPlaced(segs[1..])
    ensures HasText(segs) <==> IsText(segs[0]) || HasText(segs[1..])
  {
    hide TextInPlace, DataInPlace, IsText;
    var rest := segs[1..];
    if HasText(segs) {
      var i :| 0 <= i < |segs| && IsText(segs[i]);
      assert i > 0 ==> IsText(rest[i - 1]);
    }
    if HasText(rest) {
      var i :| 0 <= i < |rest| && IsText(rest[i]);
      assert IsText(segs[i + 1]);
    }
    if TextPlaced(segs) {
      assert forall i :: 0 <= i < |rest| ==> rest[i] == segs[i + 1];
    }
    if TextPlaced(rest) && TextInPlace(segs[0]) {
      forall i | 0 <= i < |segs|
        ensures TextInPlace(segs[i])
      {
        assert i > 0 ==> segs[i] == rest[i - 1];
      }
    }
    if DataPlaced(rest) && DataInPlace(segs[0]) {
      forall i | 0 <= i < |segs|
        ensures DataInPlace(segs[i])
      {
        assert i > 0 ==> segs[i] == rest[i - 1];
      }
    }
  }

  lemma LoadTextExact(file: seq<Byte>, img: Image, s: Segment)
    requires img.Sized() && SegmentReadable(file, s)
    ensures
      var p, patch := LoadText(file, img, s), TextPatch(file, s);
      && (p.failed.None? <==> TextInPlace(s))
      && (p.failed.None? ==>
            && Fit(patch, FLASH_SIZE)
            && p.img == Image(ApplyAll(img.flash, patch), img.sram, TextEndAfter(s, img.next),
                              img.hasText || IsText(s)))
  {
  }

  lemma {:induction false} TextPassExact(file: seq<Byte>, img: Image, segs: seq<Segment>)
    requires img.Sized() && Readable(file, segs)
    ensures
      var p, patches := TextPass(file, img, segs), TextPatches(file, segs);
      && (p.failed.None? <==> TextPlaced(segs))
      && (p.failed.None? ==>
            && Fit(patches, FLASH_SIZE)
            && p.img == Image(ApplyAll(img.flash, patches), img.sram, TextEnd(segs, img.next),
                              img.hasText || HasText(segs)))
    decreases |segs|
  {
    hide LoadText, TextPatch, ApplyAll, TextEndAfter, IsText, TextPlaced, DataPlaced, HasText;
    if segs == [] {
      EmptyFacts(img.flash);
    } else {
      LoadTextExact(file, img, segs[0]);
      Split(segs);
      var p := LoadText(file, img, segs[0]);
      if p.failed.None? {
        TextPassExact(file, p.img, segs[1..]);
        if TextPlaced(segs[1..]) {
          ApplyConcat(img.flash, TextPatch(file, segs[0]), TextPatches(file, segs[1..]));
        }
      }
    }
  }

  lemma EmptyFacts(mem: seq<Byte>)
    ensures ApplyAll(mem, []) == mem && TextPlaced([]) && DataPlaced([]) && !HasText([])
  {
  }

  // ------------------------------------------------------------------ the data pass

  lemma LoadDataExact(file: seq<Byte>, img: Image, s: Segment)
    requires img.Sized() && SegmentReadable(file, s)
    ensures
      var p, patch := LoadData(file, img, s), ImagePatch(file, s, img.next);
      && (p.failed.None? <==> DataInPlace(s) && Fit(patch, FLASH_SIZE))
      && (p.failed.None? ==>
            && Fit(SramPatch(file, s), SRAM_SIZE)
            && p.img == Image(ApplyAll(img.flash, patch), ApplyAll(img.sram, SramPatch(file, s)),
                              CursorAfter(s, img.next), img.hasText))
  {
    hide Overlay, Payload;
    if IsData(s) && DataInPlace(s) {
      InitializedExact(file, img, s);
      var p := LoadInitialized(file, img, s);
      if p.failed.None? {
        OverlayTwice(img.sram, SramAddr(s), Payload(file, s), Zeros(s.memsz - s.filesz));
      }
    }
  }

  lemma InitializedExact(file: seq<Byte>, img: Image, s: Segment)
    requires img.Sized() && SegmentReadable(file, s) && IsData(s) && DataInPlace(s)
    ensures
      var p, patch := LoadInitialized(file, img, s), ImagePatch(file, s, img.next);
      && (p.failed.None? <==> Fit(patch, FLASH_SIZE))
      && (p.failed.None? ==>
            p.img == Image(ApplyAll(img.flash, patch), Overlay(img.sram, SramAddr(s), Payload(file, s)),
                           CursorAfter(s, img.next), img.hasText))
  {
  }

  lemma OverlayTwice(mem: seq<Byte>, at: nat, a: seq<Byte>, b: seq<Byte>)
    requires at + |a| + |b| <= |mem|
    ensures Overlay(Overlay(mem, at, a), at + |a|, b) == Overlay(mem, at, a + b)
  {
  }

  lemma {:induction false} DataPassExact(file: seq<Byte>, img: Image, segs: seq<Segment>)
    requires img.Sized() && Readable(file, segs)
    ensures
      var p, images := DataPass(file, img, segs), ImagePatches(file, segs, img.next);
      && (p.failed.None? <==> DataPlaced(segs) && Fit(images, FLASH_SIZE))
      && (p.failed.None? ==>
            && Fit(SramPatches(file, segs), SRAM_SIZE)
            && p.img.flash == ApplyAll(img.flash, images)
            && p.img.sram == ApplyAll(img.sram, SramPatches(file, segs)))
    decreases |segs|
  {
    hide LoadData, ImagePatch, SramPatch, ApplyAll, CursorAfter, TextPlaced, DataPlaced, HasText, DataInPlace, Fit;
    if segs == [] {
      EmptyFacts(img.flash);
      EmptyFacts(img.sram);
      FitSplits([], [], 0);
    } else {
      LoadDataExact(file, img, segs[0]);
      Split(segs);
      var p := LoadData(file, img, segs[0]);
      var images := ImagePatches(file, segs[1..], CursorAfter(segs[0], img.next));
      FitSplits(ImagePatch(file, segs[0], img.next), images, FLASH_SIZE);
      if p.failed.None? {
        DataPassExact(file, p.img, segs[1..]);
        if DataPlaced(segs) && Fit(images, FLASH_SIZE) {
          FitSplits(SramPatch(file, segs[0]), SramPatches(file, segs[1..]), SRAM_SIZE);
          ApplyConcat(img.flash, ImagePatch(file, segs[0], img.next), images);
          ApplyConcat(img.sram, SramPatch(file, segs[0]), SramPatches(file, segs[1..]));
        }
      }
    }
  }

  lemma FitSplits(a: seq<Patch>, b: seq<Patch>, size: nat)
    ensures Fit(a + b, size) <==> Fit(a, size) && Fit(b, size)
    ensures forall n: nat :: Fit([], n)
  {
    if Fit(a + b, size) {
      assert forall i :: 0 <= i < |a| ==> (a + b)[i] == a[i];
      assert forall i :: 0 <= i < |b| ==> (a + b)[|a| + i] == b[i];
    }
  }

  // ------------------------------------------------------------------ whole files

  predicate Accepted(file: seq<Byte>) {
    && HeaderRejection(file).None?
    && var segs := Segments(file);
    && TextPlaced(segs) && HasText(segs) && DataPlaced(segs)
    && Fit(ImagePatches(file, segs, TextEnd(segs, 0)), FLASH_SIZE)
    && |file| >= EHDR_SIZE && HeaderOf(file).entry < FLASH_SIZE
  }

  /**
   A file loads exactly when its header and segments are sound, some segment is text and everything
   fits; flash is then the old flash under the text segments and the .data images in file order, SRAM
   the old SRAM under the .data values with their zeroed .bss.
   */
  lemma LoadExact(file: seq<Byte>, flash: seq<Byte>, sram: seq<Byte>)
    requires |flash| == FLASH_SIZE && |sram| == SRAM_SIZE
    ensures LoadFile(file, flash, sram).failed.None? <==> Accepted(file)
    ensures
      Accepted(file) ==>
        var segs, img := Segments(file), LoadFile(file, flash, sram).img;
        var texts, images := TextPatches(file, segs), ImagePatches(file, segs, TextEnd(segs, 0));
        && Fit(texts + images, FLASH_SIZE) && Fit(SramPatches(file, segs), SRAM_SIZE)
        && img.flash == ApplyAll(flash, texts + images)
        && img.sram == ApplyAll(sram, SramPatches(file, segs))
  {
    hide HeaderRejection, TextPass, DataPass, TextPatches, ImagePatches, SramPatches, TextPlaced, DataPlaced,
         HasText, TextEnd, Fit, ApplyAll, Segments;
    if HeaderRejection(file).None? {
      var segs, start := Segments(file), Image(flash, sram, 0, false);
      TextPassExact(file, start, segs);
      var text := TextPass(file, start, segs).img;
      DataPassExact(file, text, segs);
      if TextPlaced(segs) && Fit(ImagePatches(file, segs, text.next), FLASH_SIZE) {
        ApplyConcat(flash, TextPatches(file, segs), ImagePatches(file, segs, text.next));
      }
      HeaderLongEnough(file);
    }
  }

  predicate Covers(p: Patch, a: nat) {
    p.at <= a < p.at + |p.data|
  }

  /** Bytes under no patch are untouched. */
  lemma {:induction false} UncoveredByte(mem: seq<Byte>, ps: seq<Patch>, a: nat)
    requires Fit(ps, |mem|) && a < |mem|
    requires forall i :: 0 <= i < |ps| ==> !Covers(ps[i], a)
    ensures ApplyAll(mem, ps)[a] == mem[a]
    decreases |ps|
  {
    if ps != [] {
      UncoveredByte(Overlay(mem, ps[0].at, ps[0].data), ps[1..], a);
    }
  }

  /** A byte under several patches is the last one's. */
  lemma {:induction false} LastPatchWins(mem: seq<Byte>, ps: seq<Patch>, k: nat, a: nat)
    requires Fit(ps, |mem|) && k < |ps| && Covers(ps[k], a)
    requires forall i :: k < i < |ps| ==> !Covers(ps[i], a)
    ensures a < |mem| && ApplyAll(mem, ps)[a] == ps[k].data[a - ps[k].at]
    decreases |ps|
  {
    var mem' := Overlay(mem, ps[0].at, ps[0].data);
    if k == 0 {
      UncoveredByte(mem', ps[1..], a);
    } else {
      LastPatchWins(mem', ps[1..], k - 1, a);
    }
  }
}
